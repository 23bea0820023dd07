/**
 The parameters of a sealed command live in mutable Python dictionaries and lists. `seal_decision` and
 `sealed_command` copy them deeply; this module shows on a heap of nodes that, whatever the caller then
 writes, the sealed tree and its digest do not change.
 */
module SealedParameters {
  import opened PyText
  import opened CanonicalJson
  import opened CommandDecision

  /** A mutable dictionary (with its keys in insertion order) or list. */
  class Node {
    var isDict: bool
    var keys: seq<string>
    var slots: seq<Slot>

    constructor (isDict: bool, keys: seq<string>, slots: seq<Slot>)
      ensures this.isDict == isDict && this.keys == keys && this.slots == slots
    {
      this.isDict, this.keys, this.slots := isDict, keys, slots;
    }
  }

  /** An immutable scalar or string, or a reference to a container. */
  datatype Slot = Atom(v: PyValue) | Link(node: Node)

  predicate IsAtom(v: PyValue) { !v.PList? && !v.PDict? }

  /** The tree that starts at `s` has value `v` and lies within `footprint`. Subtrees may be shared. */
  ghost predicate Holds(s: Slot, v: PyValue, footprint: set<Node>)
    reads footprint
    decreases v
  {
    match s
    case Atom(a) => IsAtom(a) && v == a
    case Link(n) =>
      && n in footprint
      && (if n.isDict
          then v.PDict? && n.keys == Keys(v.entries) && |n.slots| == |v.entries|
               && forall i | 0 <= i < |n.slots| :: Holds(n.slots[i], v.entries[i].val, footprint)
          else v.PList? && |n.slots| == |v.items|
               && forall i | 0 <= i < |n.slots| :: Holds(n.slots[i], v.items[i], footprint))
  }

  /** The values held by the children of a container. */
  ghost function Children(v: PyValue): (r: seq<PyValue>)
    ensures forall i | 0 <= i < |r| :: r[i] < v
  {
    match v
    case PList(items) => items
    case PDict(es) => seq(|es|, i requires 0 <= i < |es| => es[i].val)
    case _ => []
  }

  function NodeSet(nodes: seq<Node>): set<Node> { set n | n in nodes }

  /** No reference leads out of the set. */
  ghost predicate Closed(nodes: set<Node>)
    reads nodes
  {
    forall n, i | n in nodes && 0 <= i < |n.slots| && n.slots[i].Link? :: n.slots[i].node in nodes
  }

  // ---------------------------------------------------------------- copy.deepcopy

  /** Which container was copied to which. */
  type Memo = map<Node, Node>

  predicate Reaches(memo: Memo, s: Slot) { s.Link? ==> s.node in memo }

  /** The copy of a slot. */
  function Image(memo: Memo, s: Slot): Slot
    requires Reaches(memo, s)
  {
    match s case Atom(v) => s case Link(n) => Link(memo[n])
  }

  /** The copy of `n` is `n`, slot by slot, with every reference replaced by the copy of what it refers to. */
  ghost predicate CopiedNode(memo: Memo, n: Node)
    requires n in memo
    reads n, memo[n]
  {
    && memo[n].isDict == n.isDict && memo[n].keys == n.keys && |memo[n].slots| == |n.slots|
    && forall i | 0 <= i < |n.slots| :: Reaches(memo, n.slots[i]) && memo[n].slots[i] == Image(memo, n.slots[i])
  }

  /** The memo copies everything but the containers still open, and no two to the same place. */
  ghost predicate CopyOf(memo: Memo, open: set<Node>)
    reads memo.Keys, memo.Values
  {
    && (forall n | n in memo && n !in open :: CopiedNode(memo, n))
    && (forall n, m | n in memo && m in memo && n != m :: memo[n] != memo[m])
  }

  ghost predicate Extends(small: Memo, large: Memo) { forall n | n in small :: n in large && large[n] == small[n] }

  /** What holds of the memo at every call: `made` are the copies, and they lie outside the originals. */
  ghost predicate Copying(memo: Memo, made: seq<Node>, open: set<Node>, footprint: set<Node>)
    reads memo.Keys, memo.Values
  {
    CopyOf(memo, open) && memo.Keys <= footprint && memo.Values == NodeSet(made) && memo.Values !! footprint
  }

  /** One recursive call: a container seen before is not copied again; a new one is entered before its children. */
  method CopySlot(s: Slot, memo: Memo, made: seq<Node>, ghost open: set<Node>, ghost v: PyValue, ghost footprint: set<Node>)
    returns (c: Slot, memo': Memo, made': seq<Node>)
    requires Holds(s, v, footprint) && Copying(memo, made, open, footprint)
    ensures Copying(memo', made', open, footprint) && Extends(memo, memo')
    ensures NodeSet(made) <= NodeSet(made') && fresh(NodeSet(made') - NodeSet(made))
    ensures Reaches(memo', s) && c == Image(memo', s)
    decreases v, 1
  {
    memo', made' := memo, made;
    match s
    case Atom(_) => c := s;
    case Link(n) =>
      if n in memo { return Link(memo[n]), memo, made; }
      var m := new Node(n.isDict, n.keys, []);
      Entered(memo, made, n, m);
      EnteredCopying(memo, made, open, footprint, n, m);
      memo', made' := FillCopy(n, m, memo[n := m], made + [m], open + {n}, v, footprint);
      Finished(memo', open, n);
      c := Link(m);
  }

  /** The children of a container, one after another, into its copy. */
  method FillCopy(n: Node, m: Node, memo: Memo, made: seq<Node>, ghost open: set<Node>, ghost v: PyValue, ghost footprint: set<Node>)
    returns (memo': Memo, made': seq<Node>)
    requires Holds(Link(n), v, footprint) && Copying(memo, made, open, footprint)
    requires n in open && n in memo && memo[n] == m && m !in footprint && m.isDict == n.isDict && m.keys == n.keys && m.slots == []
    modifies m
    ensures Copying(memo', made', open, footprint) && Extends(memo, memo') && n in memo' && CopiedNode(memo', n)
    ensures NodeSet(made) <= NodeSet(made') && fresh(NodeSet(made') - NodeSet(made))
    decreases v, 0
  {
    hide CopyOf, CopiedNode, Copying, Holds, Children, NodeSet, CopiedUpTo, Extends;
    memo', made' := memo, made;
    NothingCopied(memo, n, m);
    ChildrenHold(n, v, footprint);
    for i := 0 to |n.slots|
      invariant Holds(Link(n), v, footprint) && Copying(memo', made', open, footprint) && Extends(memo, memo')
      invariant NodeSet(made) <= NodeSet(made') && fresh(NodeSet(made') - NodeSet(made))
      invariant m.isDict == n.isDict && m.keys == n.keys && CopiedUpTo(memo', n, m, i)
    {
      ghost var before := memo';
      ChildrenHold(n, v, footprint);
      var child;
      child, memo', made' := CopySlot(n.slots[i], memo', made', open, Children(v)[i], footprint);
      CopiedStays(memo, before, memo', n, m, i);
      AppendSlot(m, child, memo', made', open, footprint, n, i);
    }
    AllCopied(memo, memo', n, m);
  }

  /** Writing to the copy of an open container leaves the finished copies as they are. */
  method AppendSlot(m: Node, child: Slot, ghost memo: Memo, ghost made: seq<Node>, ghost open: set<Node>, ghost footprint: set<Node>,
                    ghost n: Node, ghost i: nat)
    requires Copying(memo, made, open, footprint) && n in open && n in memo && memo[n] == m && n != m && m !in footprint
    requires i < |n.slots| && CopiedUpTo(memo, n, m, i) && Reaches(memo, n.slots[i]) && child == Image(memo, n.slots[i])
    modifies m`slots
    ensures Copying(memo, made, open, footprint) && CopiedUpTo(memo, n, m, i + 1)
  {
    m.slots := m.slots + [child];
    forall k | k in memo && k !in open ensures CopiedNode(memo, k) {
      assert memo[k] in memo.Values && memo[k] != m && old(CopiedNode(memo, k));
    }
  }

  lemma NothingCopied(memo: Memo, n: Node, m: Node)
    requires m.slots == []
    ensures CopiedUpTo(memo, n, m, 0) && Extends(memo, memo)
  {
  }

  lemma AllCopied(memo: Memo, memo': Memo, n: Node, m: Node)
    requires n in memo && memo[n] == m && Extends(memo, memo') && CopiedUpTo(memo', n, m, |n.slots|)
    requires m.isDict == n.isDict && m.keys == n.keys
    ensures n in memo' && CopiedNode(memo', n)
  {
  }

  lemma ChildrenHold(n: Node, v: PyValue, footprint: set<Node>)
    requires Holds(Link(n), v, footprint)
    ensures n in footprint && |Children(v)| == |n.slots|
    ensures forall j | 0 <= j < |n.slots| :: Holds(n.slots[j], Children(v)[j], footprint)
  {
  }

  /** The first `i` slots of `n` have been copied. */
  ghost predicate CopiedUpTo(memo: Memo, n: Node, m: Node, i: nat)
    reads n, m
  {
    |m.slots| == i <= |n.slots| && forall j | 0 <= j < i :: Reaches(memo, n.slots[j]) && m.slots[j] == Image(memo, n.slots[j])
  }

  lemma CopiedStays(memo: Memo, before: Memo, after: Memo, n: Node, m: Node, i: nat)
    requires Extends(memo, before) && Extends(before, after) && n in memo && CopiedUpTo(before, n, m, i)
    ensures CopiedUpTo(after, n, m, i) && Extends(memo, after) && n in after && after[n] == memo[n]
  {
  }

  lemma EnteredCopying(memo: Memo, made: seq<Node>, open: set<Node>, footprint: set<Node>, n: Node, m: Node)
    requires Copying(memo, made, open, footprint) && n in footprint && n !in memo && m !in NodeSet(made) && m !in footprint
    ensures Copying(memo[n := m], made + [m], open + {n}, footprint)
  {
    Entered(memo, made, n, m);
    var after := memo[n := m];
    forall k | k in after && k !in open + {n} ensures CopiedNode(after, k) { assert CopiedNode(memo, k); }
    forall k, l | k in after && l in after && k != l ensures after[k] != after[l] {
      assert k in memo ==> memo[k] in NodeSet(made);
      assert l in memo ==> memo[l] in NodeSet(made);
    }
  }

  lemma Finished(memo: Memo, open: set<Node>, n: Node)
    requires CopyOf(memo, open + {n}) && n in memo && CopiedNode(memo, n)
    ensures CopyOf(memo, open)
  {
    forall k | k in memo && k !in open ensures CopiedNode(memo, k) { assert k == n || k !in open + {n}; }
  }

  lemma Entered(memo: Memo, made: seq<Node>, n: Node, m: Node)
    requires n !in memo && memo.Values == NodeSet(made) && m !in NodeSet(made)
    ensures memo[n := m].Values == NodeSet(made + [m]) == NodeSet(made) + {m}
  {
    var after := memo[n := m];
    forall x ensures x in after.Values <==> x in memo.Values || x == m {
      if x in memo.Values {
        var k: Node :| k in memo && memo[k] == x;
        assert after[k] == x;
      }
      assert after[n] == m;
    }
  }

  /** The image of a tree under a finished memo has the same value. */
  lemma {:induction false} ImageHolds(memo: Memo, s: Slot, v: PyValue, footprint: set<Node>)
    requires CopyOf(memo, {}) && Reaches(memo, s) && Holds(s, v, footprint)
    ensures Holds(Image(memo, s), v, memo.Values)
    decreases v
  {
    if s.Link? {
      var n := s.node;
      assert CopiedNode(memo, n);
      forall i | 0 <= i < |n.slots| ensures Holds(memo[n].slots[i], Children(v)[i], memo.Values) {
        ImageHolds(memo, n.slots[i], Children(v)[i], footprint);
      }
    }
  }

  lemma ImagesClosed(memo: Memo)
    requires CopyOf(memo, {})
    ensures Closed(memo.Values)
  {
    forall m, i | m in memo.Values && 0 <= i < |m.slots| && m.slots[i].Link? ensures m.slots[i].node in memo.Values {
      var n :| n in memo && memo[n] == m;
      assert CopiedNode(memo, n);
    }
  }

  /** Two slots of the originals refer to the same container exactly when their copies do. */
  lemma SharingIsKept(memo: Memo, s: Slot, t: Slot)
    requires CopyOf(memo, {}) && Reaches(memo, s) && Reaches(memo, t)
    ensures Image(memo, s) == Image(memo, t) <==> s == t
  {
    if s.Link? && t.Link? && s.node != t.node { assert memo[s.node] != memo[t.node]; }
  }

  /** `copy.deepcopy`: the same value, in containers that did not exist before, one for each container of the
      original and with the same sharing: `memo` maps each to its own copy, slot by slot. */
  method DeepCopy(s: Slot, ghost v: PyValue, ghost footprint: set<Node>) returns (c: Slot, made: seq<Node>, ghost memo: Memo)
    requires Holds(s, v, footprint)
    ensures Holds(c, v, NodeSet(made)) && fresh(NodeSet(made)) && Closed(NodeSet(made))
    ensures CopyOf(memo, {}) && memo.Values == NodeSet(made) && Reaches(memo, s) && c == Image(memo, s)
  {
    var seen: Memo := map[];
    assert seen.Values == NodeSet([]);
    c, seen, made := CopySlot(s, seen, [], {}, v, footprint);
    memo := seen;
    ImageHolds(seen, s, v, footprint);
    ImagesClosed(seen);
  }

  /** Reading the whole tree, as the JSON printer does. */
  method ReadTree(s: Slot, ghost v: PyValue, ghost footprint: set<Node>) returns (r: PyValue)
    requires Holds(s, v, footprint)
    ensures r == v
    decreases v
  {
    match s
    case Atom(a) => r := a;
    case Link(n) =>
      var values := [];
      for i := 0 to |n.slots|
        invariant |values| == i && forall j | 0 <= j < i :: values[j] == Children(v)[j]
      {
        var child := ReadTree(n.slots[i], Children(v)[i], footprint);
        values := values + [child];
      }
      if n.isDict {
        var keys := n.keys;
        r := PDict(seq(|values|, i requires 0 <= i < |values| && i < |keys| => Entry(keys[i], values[i])));
        forall i | 0 <= i < |values| ensures r.entries[i] == v.entries[i] {
          assert Children(v)[i] == v.entries[i].val && Keys(v.entries)[i] == v.entries[i].key;
        }
        assert r.entries == v.entries;
      } else {
        assert values == v.items;
        r := PList(values);
      }
  }

  /** The sealed command on the heap: its own tree and the digest taken when it was sealed. */
  class Seal {
    const kind: string
    const subject: string
    const name: string
    const parameters: Slot
    const digest: string
    ghost const value: Parameters
    ghost const footprint: set<Node>

    /** The tree still has the value that was sealed, and the digest is the digest of that value. */
    ghost predicate Intact(sha: Sha)
      reads footprint
    {
      Holds(parameters, value, footprint) && digest == BindingDigest(sha, Command(kind, subject, name, value))
    }

    constructor (sha: Sha, kind: string, subject: string, name: string, original: Slot,
                 ghost v: Parameters, ghost originalNodes: set<Node>)
      requires Holds(original, v, originalNodes)
      ensures Intact(sha) && fresh(footprint) && value == v
      ensures this.kind == kind && this.subject == subject && this.name == name
    {
      var copy, nodes, _ := DeepCopy(original, v, originalNodes);
      var tree := ReadTree(copy, v, NodeSet(nodes));
      this.kind, this.subject, this.name := kind, subject, name;
      parameters := copy;
      digest := sha(Canonical(kind, subject, name, tree));
      value, footprint := v, NodeSet(nodes);
    }

    /** `sealed_command` hands out a fresh copy of the tree. */
    method SealedCommand(sha: Sha) returns (copy: Slot, made: seq<Node>)
      requires Intact(sha)
      ensures Holds(copy, value, NodeSet(made)) && fresh(NodeSet(made)) && Closed(NodeSet(made))
    {
      ghost var memo;
      copy, made, memo := DeepCopy(parameters, value, footprint);
    }

    /** Recomputing the digest from the stored tree, as the last check before the effect does. Whatever was written
        into the tree since, and whatever value it holds now: the digest is the stored one if and only if the value
        is the sealed one. */
    method RecomputeDigest(sha: Sha, ghost now: Parameters, ghost nodes: set<Node>) returns (d: string)
      requires digest == BindingDigest(sha, Command(kind, subject, name, value)) && Holds(parameters, now, nodes)
      ensures d == BindingDigest(sha, Command(kind, subject, name, now))
      ensures now == value ==> d == digest
      ensures CollisionFree(sha) ==> (d == digest <==> Meaning(now) == Meaning(value))
    {
      var tree := ReadTree(parameters, now, nodes);
      d := sha(Canonical(kind, subject, name, tree));
      if CollisionFree(sha) { DigestBinds(sha, Command(kind, subject, name, now), Command(kind, subject, name, value)); }
    }
  }

  /** A slot the caller writes: an immutable value, or a reference to the i-th container it can reach. */
  datatype Plan = PlanAtom(v: PyValue) | PlanLink(index: nat)

  /** One step of a caller: rewrite a container it can reach, make one, or ask the seal for the command. */
  datatype CallerStep =
    | Rewrite(target: nat, isDict: bool, keys: seq<string>, plan: seq<Plan>)
    | Allocate(isDict: bool, keys: seq<string>, plan: seq<Plan>)
    | AskAgain

  function SlotFor(plan: Plan, known: seq<Node>): Slot {
    match plan
    case PlanAtom(v) => Atom(v)
    case PlanLink(i) => if i < |known| then Link(known[i]) else Atom(PNone)
  }

  function SlotsFor(plan: seq<Plan>, known: seq<Node>): seq<Slot> {
    seq(|plan|, i requires 0 <= i < |plan| => SlotFor(plan[i], known))
  }

  /** One caller step: the seal is intact, and whatever the caller can reach now is still outside the seal. */
  method CallerDo(sha: Sha, seal: Seal, step: CallerStep, known: seq<Node>) returns (known': seq<Node>)
    requires seal.Intact(sha) && Closed(NodeSet(known)) && NodeSet(known) !! seal.footprint
    modifies NodeSet(known)
    ensures seal.Intact(sha) && Closed(NodeSet(known')) && NodeSet(known') !! seal.footprint
    ensures NodeSet(known) <= NodeSet(known') && fresh(NodeSet(known') - NodeSet(known))
  {
    known' := known;
    match step
    case Rewrite(target, isDict, keys, plan) =>
      if target < |known| {
        var n := known[target];
        n.isDict, n.keys, n.slots := isDict, keys, SlotsFor(plan, known);
        assert forall i | 0 <= i < |n.slots| :: n.slots[i] == SlotFor(plan[i], known);
      }
    case Allocate(isDict, keys, plan) =>
      var n := new Node(isDict, keys, SlotsFor(plan, known));
      known' := known + [n];
      assert NodeSet(known') == NodeSet(known) + {n};
      assert forall i | 0 <= i < |n.slots| :: n.slots[i] == SlotFor(plan[i], known);
    case AskAgain =>
      var _, made := seal.SealedCommand(sha);
      known' := known + made;
      assert NodeSet(known') == NodeSet(known) + NodeSet(made);
  }

  /**
   Every run of a caller, of any length and with any writes, that starts from containers outside the seal
   (in particular from the original parameters): the seal is intact after it, and recomputing the digest
   gives the digest that was stored.
   */
  method AnyCallerRun(sha: Sha, seal: Seal, script: seq<CallerStep>, start: seq<Node>) returns (recomputed: string)
    requires seal.Intact(sha) && Closed(NodeSet(start)) && NodeSet(start) !! seal.footprint
    modifies NodeSet(start)
    ensures seal.Intact(sha) && recomputed == seal.digest
  {
    var known := start;
    for k := 0 to |script|
      invariant seal.Intact(sha)
      invariant Closed(NodeSet(known)) && NodeSet(known) !! seal.footprint
      invariant NodeSet(start) <= NodeSet(known) && fresh(NodeSet(known) - NodeSet(start))
    {
      known := CallerDo(sha, seal, script[k], known);
    }
    recomputed := seal.RecomputeDigest(sha, seal.value, seal.footprint);
  }

  /** Seal, then let the caller do anything to the parameters it handed in. */
  method SealThenMutate(sha: Sha, kind: string, subject: string, name: string, original: Slot,
                        ghost v: Parameters, owned: seq<Node>, script: seq<CallerStep>) returns (seal: Seal)
    requires Holds(original, v, NodeSet(owned)) && Closed(NodeSet(owned))
    modifies NodeSet(owned)
    ensures seal.Intact(sha) && seal.value == v
    ensures seal.digest == BindingDigest(sha, Command(kind, subject, name, v))
  {
    seal := new Seal(sha, kind, subject, name, original, v, NodeSet(owned));
    var _ := AnyCallerRun(sha, seal, script, owned);
  }
}
