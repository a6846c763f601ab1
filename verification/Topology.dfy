/** The replication tree that `patronictl` prints (patroni/ctl.py). */
module Topology {
  import opened Names

  datatype Parent = Nobody | Node(name: Name)

  /** A member as reported: its role, and the node its `replicatefrom` tag names, if any. */
  datatype Member = Member(name: Name, isLeader: bool, replicateFrom: Parent)

  /** A printed row: a member and its level, and the name as it is displayed. */
  datatype Row = Row(name: Name, level: nat) {
    function Display(): string {
      if level == 0 then name else Spaces((level - 1) * 2) + "+ " + name
    }
  }

  function Spaces(n: nat): string { seq(n, _ => ' ') }

  ghost predicate UniqueNames(members: seq<Member>) {
    forall i, j :: 0 <= i < j < |members| ==> members[i].name != members[j].name
  }

  /** The first leader; without one the root has no name. */
  function Root(members: seq<Member>): Parent {
    if members == [] then Nobody
    else if members[0].isLeader then Node(members[0].name)
    else Root(members[1..])
  }

  function Replicas(members: seq<Member>): set<Name> {
    set i | 0 <= i < |members| && !members[i].isLeader :: members[i].name
  }

  /** Where a replica is shown: under the replica it names, else under the root. */
  function ParentOf(members: seq<Member>, m: Member): Parent {
    if m.replicateFrom.Node? && m.replicateFrom.name != m.name && m.replicateFrom.name in Replicas(members)
    then m.replicateFrom else Root(members)
  }

  /** The replicas under a node, in the order of the members. */
  function ChildrenAmong(members: seq<Member>, some: seq<Member>, parent: Parent): seq<Member> {
    if some == [] then []
    else (if !some[0].isLeader && ParentOf(members, some[0]) == parent then [some[0]] else []) +
         ChildrenAmong(members, some[1..], parent)
  }

  function Children(members: seq<Member>, parent: Parent): seq<Member> {
    ChildrenAmong(members, members, parent)
  }

  /** `topology.get(parent, [])`. */
  function Listed(topology: map<Parent, seq<Member>>, parent: Parent): seq<Member> {
    if parent in topology then topology[parent] else []
  }

  ghost predicate Fills(members: seq<Member>, some: seq<Member>, topology: map<Parent, seq<Member>>) {
    forall p :: Listed(topology, p) == ChildrenAmong(members, some, p)
  }

  lemma FillsOneMore(members: seq<Member>, some: seq<Member>, m: Member, topology: map<Parent, seq<Member>>)
    requires Fills(members, some, topology)
    ensures m.isLeader ==> Fills(members, some + [m], topology)
    ensures !m.isLeader ==>
      var parent := ParentOf(members, m); Fills(members, some + [m], topology[parent := Listed(topology, parent) + [m]])
  {
    forall p { ChildrenAppend(members, some, m, p); }
  }

  /** The loop of `topology_sort` that fills a dictionary of lists. */
  method FillTopology(members: seq<Member>) returns (topology: map<Parent, seq<Member>>)
    ensures Fills(members, members, topology)
  {
    topology := map[];
    for i := 0 to |members|
      invariant Fills(members, members[..i], topology)
    {
      hide Fills, Root, Replicas, ParentOf, ChildrenAmong, Listed;
      var m := members[i];
      assert members[..i + 1] == members[..i] + [m];
      FillsOneMore(members, members[..i], m, topology);
      if !m.isLeader {
        var parent := ParentOf(members, m);
        topology := topology[parent := Listed(topology, parent) + [m]];
      }
    }
    assert members[..|members|] == members;
  }

  lemma {:induction false} ChildrenAppend(members: seq<Member>, some: seq<Member>, m: Member, parent: Parent)
    ensures ChildrenAmong(members, some + [m], parent) ==
            ChildrenAmong(members, some, parent) + (if !m.isLeader && ParentOf(members, m) == parent then [m] else [])
  {
    if some != [] {
      assert (some + [m])[1..] == some[1..] + [m];
      ChildrenAppend(members, some[1..], m, parent);
    }
  }

  lemma {:induction false} ChildrenAre(members: seq<Member>, some: seq<Member>, parent: Parent)
    ensures forall m :: m in ChildrenAmong(members, some, parent) <==>
        m in some && !m.isLeader && ParentOf(members, m) == parent
  {
    if some != [] { ChildrenAre(members, some[1..], parent); }
  }

  // ---------------------------------------------------------------- chains of parents

  /** The replica of this name, and where it is shown. */
  ghost predicate IsShownUnder(members: seq<Member>, x: Name, parent: Parent) {
    exists m :: m in members && m.name == x && !m.isLeader && ParentOf(members, m) == parent
  }

  /** The chain of parents of `x` leads to the root in `level` steps. */
  ghost predicate HasLevel(members: seq<Member>, x: Name, level: nat)
    decreases level
  {
    level > 0 && exists parent ::
      && IsShownUnder(members, x, parent)
      && (parent == Root(members) <==> level == 1)
      && (level > 1 ==> parent.Node? && HasLevel(members, parent.name, level - 1))
  }

  lemma ShownOnce(members: seq<Member>, x: Name, a: Parent, b: Parent)
    requires UniqueNames(members) && IsShownUnder(members, x, a) && IsShownUnder(members, x, b)
    ensures a == b
  {
    var m :| m in members && m.name == x && !m.isLeader && ParentOf(members, m) == a;
    var n :| n in members && n.name == x && !n.isLeader && ParentOf(members, n) == b;
    var i :| 0 <= i < |members| && members[i] == m;
    var j :| 0 <= j < |members| && members[j] == n;
  }

  /** Each replica is at one level at most, so none of those below the root is in a cycle. */
  lemma {:induction false} LevelIsUnique(members: seq<Member>, x: Name, a: nat, b: nat)
    requires UniqueNames(members) && HasLevel(members, x, a) && HasLevel(members, x, b)
    ensures a == b
    decreases a
  {
    var p :| IsShownUnder(members, x, p) && (p == Root(members) <==> a == 1) &&
        (a > 1 ==> p.Node? && HasLevel(members, p.name, a - 1));
    var q :| IsShownUnder(members, x, q) && (q == Root(members) <==> b == 1) &&
        (b > 1 ==> q.Node? && HasLevel(members, q.name, b - 1));
    ShownOnce(members, x, p, q);
    if a > 1 { LevelIsUnique(members, p.name, a - 1, b - 1); }
  }

  ghost predicate HasLevelUpTo(members: seq<Member>, x: Name, level: nat) {
    exists k: nat :: k <= level && HasLevel(members, x, k)
  }

  /** A chain has no more nodes than there are replicas. */
  lemma {:induction false} ChainIsShort(members: seq<Member>, x: Name, level: nat) returns (chain: set<Name>)
    requires UniqueNames(members) && HasLevel(members, x, level)
    ensures chain <= Replicas(members) && |chain| == level
    ensures forall y :: y in chain ==> HasLevelUpTo(members, y, level)
    decreases level
  {
    hide ParentOf, Root;
    var p :| IsShownUnder(members, x, p) && (p == Root(members) <==> level == 1) &&
        (level > 1 ==> p.Node? && HasLevel(members, p.name, level - 1));
    var m :| m in members && m.name == x && !m.isLeader && ParentOf(members, m) == p;
    var i :| 0 <= i < |members| && members[i] == m;
    assert x in Replicas(members);
    if level == 1 {
      chain := {x};
    } else {
      var rest := ChainIsShort(members, p.name, level - 1);
      forall k: nat | k <= level - 1 && HasLevel(members, x, k) ensures false {
        LevelIsUnique(members, x, k, level);
      }
      chain := rest + {x};
    }
  }

  lemma LevelIsBounded(members: seq<Member>, x: Name, level: nat)
    requires UniqueNames(members) && HasLevel(members, x, level)
    ensures level <= |Replicas(members)|
  {
    var chain := ChainIsShort(members, x, level);
    SubsetSize(chain, Replicas(members));
  }

  lemma {:induction false} RootIsLeader(members: seq<Member>)
    ensures Root(members).Node? ==> exists m :: m in members && m.isLeader && m.name == Root(members).name
  {
    if members != [] {
      assert members[0] in members;
      if !members[0].isLeader { RootIsLeader(members[1..]); }
    }
  }

  /** A node of the tree: the root, or a replica at that level. */
  ghost predicate OnTree(members: seq<Member>, parent: Parent, level: nat) {
    if level == 0 then parent == Root(members)
    else parent.Node? && parent != Root(members) && HasLevel(members, parent.name, level)
  }

  lemma RootIsNoReplica(members: seq<Member>, m: Member)
    requires UniqueNames(members) && m in members && !m.isLeader
    ensures Root(members) != Node(m.name)
  {
    RootIsLeader(members);
    if Root(members).Node? {
      var l :| l in members && l.isLeader && l.name == Root(members).name;
      var i :| 0 <= i < |members| && members[i] == l;
      var j :| 0 <= j < |members| && members[j] == m;
      assert i != j && members[i].name != members[j].name;
    }
  }

  lemma ChildrenAreOnTree(members: seq<Member>, parent: Parent, level: nat)
    requires UniqueNames(members) && OnTree(members, parent, level)
    ensures forall c <- Children(members, parent) ::
        OnTree(members, Node(c.name), level + 1) && IsShownUnder(members, c.name, parent)
    ensures level <= |Replicas(members)|
  {
    ChildrenAre(members, members, parent);
    forall c | c in Children(members, parent)
      ensures OnTree(members, Node(c.name), level + 1) && IsShownUnder(members, c.name, parent) {
      assert IsShownUnder(members, c.name, parent);
      RootIsNoReplica(members, c);
      assert HasLevel(members, c.name, level + 1);
    }
    if level > 0 { LevelIsBounded(members, parent.name, level); }
  }

  // ---------------------------------------------------------------- the walk

  /** The rows of a node and all below it. That this ends, whatever the tags say, is a matter
      of the chains being short. */
  function Generate(members: seq<Member>, parent: Parent, level: nat): seq<Row>
    requires UniqueNames(members) && OnTree(members, parent, level)
    decreases |Replicas(members)| + 1 - level, 0
  {
    ChildrenAreOnTree(members, parent, level);
    (if parent.Node? then [Row(parent.name, level)] else []) +
      GenerateAll(members, Children(members, parent), level + 1)
  }

  function GenerateAll(members: seq<Member>, children: seq<Member>, level: nat): seq<Row>
    requires UniqueNames(members) && forall c <- children :: OnTree(members, Node(c.name), level)
    decreases |Replicas(members)| + 1 - level, |children|
  {
    if children == [] then []
    else Generate(members, Node(children[0].name), level) + GenerateAll(members, children[1..], level)
  }

  /** `x` at level `k` is `p` at level `l`, or below it. */
  ghost predicate Descends(members: seq<Member>, x: Parent, k: nat, p: Parent, l: nat)
    decreases k
  {
    if k <= l then k == l && x == p
    else x.Node? && exists q :: IsShownUnder(members, x.name, q) && Descends(members, q, k - 1, p, l)
  }

  lemma {:induction false} AncestorIsUnique(members: seq<Member>, x: Parent, k: nat, p: Parent, q: Parent, l: nat)
    requires UniqueNames(members) && Descends(members, x, k, p, l) && Descends(members, x, k, q, l)
    ensures p == q
    decreases k
  {
    if k > l {
      var u :| IsShownUnder(members, x.name, u) && Descends(members, u, k - 1, p, l);
      var v :| IsShownUnder(members, x.name, v) && Descends(members, v, k - 1, q, l);
      ShownOnce(members, x.name, u, v);
      AncestorIsUnique(members, u, k - 1, p, q, l);
    }
  }

  lemma DescendsMeans(members: seq<Member>, x: Parent, k: nat, p: Parent, l: nat)
    requires Descends(members, x, k, p, l)
    ensures k >= l && (k == l ==> x == p)
  {
  }

  /** Being below a child is being below its parent. */
  lemma {:induction false} DescendsFromParent(members: seq<Member>, x: Parent, k: nat, c: Name, p: Parent, l: nat)
    requires Descends(members, x, k, Node(c), l + 1) && IsShownUnder(members, c, p)
    ensures Descends(members, x, k, p, l)
    decreases k
  {
    if k > l + 1 {
      var u :| IsShownUnder(members, x.name, u) && Descends(members, u, k - 1, Node(c), l + 1);
      DescendsFromParent(members, u, k - 1, c, p, l);
    } else {
      assert Descends(members, p, l, p, l);
    }
  }

  /** Being below a node is being that node, or below one of its children. */
  lemma {:induction false} DescendsFromChild(members: seq<Member>, x: Parent, k: nat, p: Parent, l: nat)
      returns (c: Name)
    requires Descends(members, x, k, p, l) && k > l
    ensures Descends(members, x, k, Node(c), l + 1) && IsShownUnder(members, c, p)
    decreases k
  {
    var u :| IsShownUnder(members, x.name, u) && Descends(members, u, k - 1, p, l);
    if k == l + 1 {
      c := x.name;
    } else {
      c := DescendsFromChild(members, u, k - 1, p, l);
    }
  }

  /** A level is a chain down from the root. */
  lemma {:induction false} LevelIsChain(members: seq<Member>, x: Name, k: nat)
    requires HasLevel(members, x, k)
    ensures Descends(members, Node(x), k, Root(members), 0)
    decreases k
  {
    hide ParentOf, Root, IsShownUnder;
    var p :| IsShownUnder(members, x, p) && (p == Root(members) <==> k == 1) &&
        (k > 1 ==> p.Node? && HasLevel(members, p.name, k - 1));
    if k > 1 { LevelIsChain(members, p.name, k - 1); }
    assert Descends(members, p, k - 1, Root(members), 0);
  }

  // ---------------------------------------------------------------- what is printed

  /** Every row stands for a node below the one the walk began at, at its level. */
  lemma {:induction false} RowsAreBelow(members: seq<Member>, parent: Parent, level: nat)
    requires UniqueNames(members) && OnTree(members, parent, level)
    ensures forall r :: r in Generate(members, parent, level) ==>
              OnTree(members, Node(r.name), r.level) && Descends(members, Node(r.name), r.level, parent, level)
    decreases |Replicas(members)| + 1 - level, 0
  {
    ChildrenAreOnTree(members, parent, level);
    var children := Children(members, parent);
    AllRowsAreBelow(members, children, parent, level);
  }

  lemma {:induction false} AllRowsAreBelow(members: seq<Member>, children: seq<Member>, parent: Parent, level: nat)
    requires UniqueNames(members)
    requires forall c <- children :: OnTree(members, Node(c.name), level + 1) && IsShownUnder(members, c.name, parent)
    ensures forall r :: r in GenerateAll(members, children, level + 1) ==>
              && OnTree(members, Node(r.name), r.level) && Descends(members, Node(r.name), r.level, parent, level)
              && r.level > level
              && exists i ::
                   0 <= i < |children| && Descends(members, Node(r.name), r.level, Node(children[i].name), level + 1)
    decreases |Replicas(members)| - level, |children|
  {
    hide HasLevel, IsShownUnder, OnTree, Root, Replicas, ParentOf, ChildrenAmong, Descends, UniqueNames;
    if children != [] {
      var c := children[0];
      assert c in children;
      RowsAreBelow(members, Node(c.name), level + 1);
      AllRowsAreBelow(members, children[1..], parent, level);
      forall r | r in Generate(members, Node(c.name), level + 1)
        ensures Descends(members, Node(r.name), r.level, parent, level) && r.level > level {
        DescendsFromParent(members, Node(r.name), r.level, c.name, parent, level);
        DescendsMeans(members, Node(r.name), r.level, Node(c.name), level + 1);
      }
      forall r | r in GenerateAll(members, children[1..], level + 1)
        ensures exists i ::
          0 <= i < |children| && Descends(members, Node(r.name), r.level, Node(children[i].name), level + 1)
      {
        var i :| 0 <= i < |children[1..]| &&
            Descends(members, Node(r.name), r.level, Node(children[1..][i].name), level + 1);
        assert children[i + 1] == children[1..][i];
      }
    }
  }

  /** Every node below the one the walk began at has a row. */
  lemma {:induction false} BelowHasRow(members: seq<Member>, parent: Parent, level: nat, x: Name, k: nat)
    requires UniqueNames(members) && OnTree(members, parent, level) && Descends(members, Node(x), k, parent, level)
    ensures Row(x, k) in Generate(members, parent, level)
    decreases |Replicas(members)| + 1 - level, 0
  {
    hide HasLevel, OnTree, Root, Replicas, ParentOf, ChildrenAmong, UniqueNames, GenerateAll;
    ChildrenAreOnTree(members, parent, level);
    if k > level {
      var c := DescendsFromChild(members, Node(x), k, parent, level);
      var m :| m in members && m.name == c && !m.isLeader && ParentOf(members, m) == parent;
      ChildrenAre(members, members, parent);
      BelowChildHasRow(members, Children(members, parent), m, level + 1, x, k);
    }
  }

  lemma {:induction false} BelowChildHasRow(members: seq<Member>, children: seq<Member>, m: Member, level: nat,
      x: Name, k: nat)
    requires UniqueNames(members) && m in children && forall c <- children :: OnTree(members, Node(c.name), level)
    requires Descends(members, Node(x), k, Node(m.name), level)
    ensures Row(x, k) in GenerateAll(members, children, level)
    decreases |Replicas(members)| + 1 - level, |children|
  {
    assert children[0] in children;
    if m == children[0] { BelowHasRow(members, Node(m.name), level, x, k); }
    else { BelowChildHasRow(members, children[1..], m, level, x, k); }
  }

  ghost predicate DistinctNames(rows: seq<Row>) {
    forall i, j :: 0 <= i < j < |rows| ==> rows[i].name != rows[j].name
  }

  /** Nodes on the tree with the same name are the same node at the same level. */
  lemma SameNameSameLevel(members: seq<Member>, x: Name, a: nat, b: nat)
    requires UniqueNames(members) && OnTree(members, Node(x), a) && OnTree(members, Node(x), b)
    ensures a == b
  {
    if a > 0 && b > 0 { LevelIsUnique(members, x, a, b); }
  }

  lemma {:induction false} ChildrenAreDistinct(members: seq<Member>, some: seq<Member>, parent: Parent)
    requires UniqueNames(some)
    ensures UniqueNames(ChildrenAmong(members, some, parent))
  {
    if some != [] {
      ChildrenAreDistinct(members, some[1..], parent);
      ChildrenAre(members, some[1..], parent);
      forall m | m in ChildrenAmong(members, some[1..], parent) ensures m.name != some[0].name {
        var j :| 0 <= j < |some[1..]| && some[1..][j] == m;
        assert some[j + 1] == m;
      }
    }
  }

  /** No name is printed twice. */
  lemma {:induction false} NamesAreDistinct(members: seq<Member>, parent: Parent, level: nat)
    requires UniqueNames(members) && OnTree(members, parent, level)
    ensures DistinctNames(Generate(members, parent, level))
    decreases |Replicas(members)| + 1 - level, 0
  {
    hide HasLevel, IsShownUnder, OnTree, Root, Replicas, ParentOf, ChildrenAmong, UniqueNames;
    ChildrenAreOnTree(members, parent, level);
    ChildrenAreDistinct(members, members, parent);
    var children := Children(members, parent);
    AllNamesAreDistinct(members, children, parent, level);
    AllRowsAreBelow(members, children, parent, level);
    if parent.Node? {
      forall r | r in GenerateAll(members, children, level + 1) ensures r.name != parent.name {
        if r.name == parent.name { SameNameSameLevel(members, r.name, r.level, level); }
      }
    }
  }

  lemma DistinctTogether(first: seq<Row>, rest: seq<Row>)
    requires DistinctNames(first) && DistinctNames(rest)
    requires forall r, s :: r in first && s in rest ==> r.name != s.name
    ensures DistinctNames(first + rest)
  {}

  lemma {:induction false} AllNamesAreDistinct(members: seq<Member>, children: seq<Member>, parent: Parent, level: nat)
    requires UniqueNames(members) && UniqueNames(children)
    requires forall c <- children :: OnTree(members, Node(c.name), level + 1) && IsShownUnder(members, c.name, parent)
    ensures DistinctNames(GenerateAll(members, children, level + 1))
    decreases |Replicas(members)| - level, |children|
  {
    hide HasLevel, IsShownUnder, OnTree, Root, Replicas, ParentOf, ChildrenAmong, Descends, Generate;
    if children != [] {
      var c := children[0];
      assert c in children;
      NamesAreDistinct(members, Node(c.name), level + 1);
      AllNamesAreDistinct(members, children[1..], parent, level);
      RowsAreBelow(members, Node(c.name), level + 1);
      AllRowsAreBelow(members, children[1..], parent, level);
      forall r, s | r in Generate(members, Node(c.name), level + 1) &&
        s in GenerateAll(members, children[1..], level + 1)
        ensures r.name != s.name
      {
        if r.name == s.name {
          SameNameSameLevel(members, r.name, r.level, s.level);
          var i :| 0 <= i < |children[1..]| &&
              Descends(members, Node(s.name), s.level, Node(children[1..][i].name), level + 1);
          AncestorIsUnique(members, Node(r.name), r.level, Node(c.name), Node(children[1..][i].name), level + 1);
        }
      }
      DistinctTogether(Generate(members, Node(c.name), level + 1), GenerateAll(members, children[1..], level + 1));
    }
  }

  /** The row before which another one must be printed. */
  ghost predicate IsParentRow(members: seq<Member>, a: Row, b: Row) {
    a.level + 1 == b.level && IsShownUnder(members, b.name, Node(a.name))
  }

  /** The parent's row, and between the two nothing but rows of nodes further down: the walk
      finishes each subtree before it goes on. */
  ghost predicate IsNearestParent(members: seq<Member>, rows: seq<Row>, j: nat, i: nat)
    requires j < i < |rows|
  {
    IsParentRow(members, rows[j], rows[i]) && forall k :: j < k < i ==> rows[k].level >= rows[i].level
  }

  ghost predicate ParentsFirst(members: seq<Member>, rows: seq<Row>, top: nat) {
    forall i :: 0 <= i < |rows| && rows[i].level > top ==> HasParentRow(members, rows, i)
  }

  ghost predicate HasParentRow(members: seq<Member>, rows: seq<Row>, i: nat)
    requires i < |rows|
  {
    exists j :: 0 <= j < i && IsNearestParent(members, rows, j, i)
  }

  /** Rows before and after do not matter. */
  lemma ParentRowShifts(members: seq<Member>, before: seq<Row>, rows: seq<Row>, after: seq<Row>, i: nat)
    requires i < |rows| && HasParentRow(members, rows, i)
    ensures HasParentRow(members, before + rows + after, |before| + i)
  {
    hide IsParentRow;
    var all := before + rows + after;
    var j :| 0 <= j < i && IsNearestParent(members, rows, j, i);
    assert forall k :: 0 <= k < |rows| ==> all[|before| + k] == rows[k];
    forall k | |before| + j < k < |before| + i ensures all[k].level >= all[|before| + i].level {
      assert all[k] == rows[k - |before|];
    }
    assert IsNearestParent(members, all, |before| + j, |before| + i);
  }

  /** Each row comes after that of its parent, within the rows of the parent's subtree. */
  lemma {:induction false} ParentsComeFirst(members: seq<Member>, parent: Parent, level: nat)
    requires UniqueNames(members) && OnTree(members, parent, level)
    ensures ParentsFirst(members, Generate(members, parent, level), if parent.Node? then level else level + 1)
    decreases |Replicas(members)| + 1 - level, 0
  {
    hide HasLevel, IsShownUnder, OnTree, Root, Replicas, ParentOf, ChildrenAmong, UniqueNames, Descends;
    ChildrenAreOnTree(members, parent, level);
    var children := Children(members, parent);
    AllParentsComeFirst(members, children, parent, level);
    var rest := GenerateAll(members, children, level + 1);
    var rows := Generate(members, parent, level);
    if parent.Node? {
      AllRowsAreBelow(members, children, parent, level);
      ParentOnTop(members, Row(parent.name, level), rest);
    } else {
      assert rows == rest;
    }
  }

  lemma ParentOnTop(members: seq<Member>, top: Row, rest: seq<Row>)
    requires ParentsFirst(members, rest, top.level + 1)
    requires forall r <- rest :: r.level > top.level
    requires forall r <- rest :: r.level == top.level + 1 ==> IsShownUnder(members, r.name, Node(top.name))
    ensures ParentsFirst(members, [top] + rest, top.level)
  {
    hide IsShownUnder, HasParentRow;
    forall i | 0 <= i < |[top] + rest| && ([top] + rest)[i].level > top.level
      ensures HasParentRow(members, [top] + rest, i)
    {
      assert ([top] + rest)[i] == rest[i - 1] && rest[i - 1] in rest;
      if rest[i - 1].level == top.level + 1 {
        ChildOfTop(members, top, rest, i - 1);
      } else {
        ParentRowShifts(members, [top], rest, [], i - 1);
        assert [top] + rest + [] == [top] + rest;
      }
    }
  }

  lemma ChildOfTop(members: seq<Member>, top: Row, rest: seq<Row>, i: nat)
    requires i < |rest| && rest[i].level == top.level + 1 && IsShownUnder(members, rest[i].name, Node(top.name))
    requires forall r <- rest :: r.level > top.level
    ensures HasParentRow(members, [top] + rest, i + 1)
  {
    hide IsShownUnder;
    var rows := [top] + rest;
    forall k | 0 < k < i + 1 ensures rows[k].level >= rows[i + 1].level {
      assert rows[k] == rest[k - 1] && rest[k - 1] in rest;
    }
    assert IsNearestParent(members, rows, 0, i + 1);
  }

  lemma ParentsFirstTogether(members: seq<Member>, first: seq<Row>, rest: seq<Row>, top: nat)
    requires ParentsFirst(members, first, top) && ParentsFirst(members, rest, top)
    ensures ParentsFirst(members, first + rest, top)
  {
    hide HasParentRow;
    var rows := first + rest;
    forall i | 0 <= i < |rows| && rows[i].level > top ensures HasParentRow(members, rows, i) {
      if i < |first| {
        ParentRowShifts(members, [], first, rest, i);
        assert [] + first + rest == rows;
      } else {
        ParentRowShifts(members, first, rest, [], i - |first|);
        assert first + rest + [] == rows;
      }
    }
  }

  lemma {:induction false} AllParentsComeFirst(members: seq<Member>, children: seq<Member>, parent: Parent, level: nat)
    requires UniqueNames(members)
    requires forall c <- children :: OnTree(members, Node(c.name), level + 1) && IsShownUnder(members, c.name, parent)
    ensures ParentsFirst(members, GenerateAll(members, children, level + 1), level + 1)
    ensures forall r :: r in GenerateAll(members, children, level + 1) && r.level == level + 1 ==>
        IsShownUnder(members, r.name, parent)
    decreases |Replicas(members)| - level, |children|
  {
    hide HasLevel, IsShownUnder, OnTree, Root, Replicas, ParentOf, ChildrenAmong, UniqueNames, Descends, ParentsFirst;
    if children == [] {
      NoRowsBefore(members, level + 1);
    } else {
      var c := children[0];
      assert c in children;
      var first := Generate(members, Node(c.name), level + 1);
      ParentsComeFirst(members, Node(c.name), level + 1);
      AllParentsComeFirst(members, children[1..], parent, level);
      RowsAreBelow(members, Node(c.name), level + 1);
      forall r | r in first && r.level == level + 1 ensures IsShownUnder(members, r.name, parent) {
        DescendsMeans(members, Node(r.name), r.level, Node(c.name), level + 1);
      }
      ParentsFirstTogether(members, first, GenerateAll(members, children[1..], level + 1), level + 1);
    }
  }

  lemma NoRowsBefore(members: seq<Member>, top: nat)
    ensures ParentsFirst(members, [], top)
  {}

  // ---------------------------------------------------------------- the order of siblings

  /** One name is registered before another. */
  ghost predicate Precedes(members: seq<Member>, x: Name, y: Name) {
    exists a, b :: 0 <= a < b < |members| && members[a].name == x && members[b].name == y
  }

  ghost predicate InOrder(members: seq<Member>, some: seq<Member>) {
    forall i, j :: 0 <= i < j < |some| ==> Precedes(members, some[i].name, some[j].name)
  }

  lemma {:induction false} ChildrenAreInOrder(members: seq<Member>, n: nat, parent: Parent)
    requires n <= |members|
    ensures InOrder(members, ChildrenAmong(members, members[n..], parent))
    decreases |members| - n
  {
    if n < |members| {
      ChildrenAreInOrder(members, n + 1, parent);
      var m, rest := members[n], ChildrenAmong(members, members[n + 1..], parent);
      assert members[n..][1..] == members[n + 1..];
      ChildrenAre(members, members[n + 1..], parent);
      hide Precedes, ParentOf;
      forall c | c in rest ensures Precedes(members, m.name, c.name) { FirstPrecedes(members, n, c); }
      FirstInOrder(members, m, rest);
      hide InOrder;
      assert [] + rest == rest && members[n..][0] == m;
      var all := ChildrenAmong(members, members[n..], parent);
      assert all == rest || all == [m] + rest;
    }
  }

  lemma FirstPrecedes(members: seq<Member>, n: nat, c: Member)
    requires n < |members| && c in members[n + 1..]
    ensures Precedes(members, members[n].name, c.name)
  {
    var k :| 0 <= k < |members[n + 1..]| && members[n + 1..][k] == c;
    assert members[n + 1 + k].name == c.name;
  }

  lemma FirstInOrder(members: seq<Member>, m: Member, rest: seq<Member>)
    requires InOrder(members, rest) && forall c <- rest :: Precedes(members, m.name, c.name)
    ensures InOrder(members, [m] + rest)
  {
    hide Precedes;
    var all := [m] + rest;
    forall i, j | 0 <= i < j < |all| ensures Precedes(members, all[i].name, all[j].name) {
      assert all[j] == rest[j - 1] && rest[j - 1] in rest;
      if i > 0 { assert all[i] == rest[i - 1]; }
    }
  }

  /** Rows of nodes with the same parent are in the order of the members. */
  ghost predicate SiblingsInOrder(members: seq<Member>, rows: seq<Row>) {
    forall i, j :: 0 <= i < j < |rows| && AreSiblings(members, rows[i], rows[j]) ==>
      Precedes(members, rows[i].name, rows[j].name)
  }

  ghost predicate AreSiblings(members: seq<Member>, r: Row, s: Row) {
    r.level == s.level && exists p :: IsShownUnder(members, r.name, p) && IsShownUnder(members, s.name, p)
  }

  lemma SiblingsTogether(members: seq<Member>, first: seq<Row>, rest: seq<Row>)
    requires SiblingsInOrder(members, first) && SiblingsInOrder(members, rest)
    requires forall r, s | r in first && s in rest && AreSiblings(members, r, s) :: Precedes(members, r.name, s.name)
    ensures SiblingsInOrder(members, first + rest)
  {
    hide AreSiblings, Precedes;
    var rows := first + rest;
    forall i, j | 0 <= i < j < |rows| && AreSiblings(members, rows[i], rows[j])
      ensures Precedes(members, rows[i].name, rows[j].name)
    {
      if j < |first| {
        assert rows[i] == first[i] && rows[j] == first[j];
      } else if i >= |first| {
        assert rows[i] == rest[i - |first|] && rows[j] == rest[j - |first|];
      } else {
        assert rows[i] in first && rows[j] in rest;
      }
    }
  }

  lemma ParentDescends(members: seq<Member>, x: Name, k: nat, p: Parent, c: Parent, l: nat)
    requires UniqueNames(members) && IsShownUnder(members, x, p) && Descends(members, Node(x), k, c, l) && k > l
    ensures Descends(members, p, k - 1, c, l)
  {
    var q :| IsShownUnder(members, x, q) && Descends(members, q, k - 1, c, l);
    ShownOnce(members, x, p, q);
  }

  /** Siblings below two different nodes of one level are those nodes. */
  lemma SiblingsBelow(members: seq<Member>, r: Row, s: Row, c: Name, d: Name, l: nat)
    requires UniqueNames(members) && AreSiblings(members, r, s) && c != d
    requires Descends(members, Node(r.name), r.level, Node(c), l) &&
        Descends(members, Node(s.name), s.level, Node(d), l)
    ensures r.name == c && s.name == d
  {
    hide UniqueNames, Descends, IsShownUnder;
    DescendsMeans(members, Node(r.name), r.level, Node(c), l);
    DescendsMeans(members, Node(s.name), s.level, Node(d), l);
    if r.level > l {
      var p :| IsShownUnder(members, r.name, p) && IsShownUnder(members, s.name, p);
      ParentDescends(members, r.name, r.level, p, Node(c), l);
      ParentDescends(members, s.name, s.level, p, Node(d), l);
      AncestorIsUnique(members, p, r.level - 1, Node(c), Node(d), l);
    }
  }

  /** The replicas under one node are printed in the order of the members. */
  lemma {:induction false} SiblingsAreInOrder(members: seq<Member>, parent: Parent, level: nat)
    requires UniqueNames(members) && OnTree(members, parent, level)
    ensures SiblingsInOrder(members, Generate(members, parent, level))
    decreases |Replicas(members)| + 1 - level, 0
  {
    hide HasLevel, IsShownUnder, OnTree, Root, Replicas, ParentOf, ChildrenAmong, UniqueNames, Descends;
    ChildrenAreOnTree(members, parent, level);
    ChildrenAreDistinct(members, members, parent);
    var children := Children(members, parent);
    assert members[0..] == members;
    ChildrenAreInOrder(members, 0, parent);
    AllSiblingsAreInOrder(members, children, parent, level);
    AllRowsAreBelow(members, children, parent, level);
    if parent.Node? {
      NoSiblings(members, Row(parent.name, level));
      SiblingsTogether(members, [Row(parent.name, level)], GenerateAll(members, children, level + 1));
    }
  }

  lemma NoSiblings(members: seq<Member>, r: Row)
    ensures SiblingsInOrder(members, [r])
  {}

  lemma {:induction false} AllSiblingsAreInOrder(members: seq<Member>, children: seq<Member>, parent: Parent,
      level: nat)
    requires UniqueNames(members) && UniqueNames(children) && InOrder(members, children)
    requires forall c <- children :: OnTree(members, Node(c.name), level + 1) && IsShownUnder(members, c.name, parent)
    ensures SiblingsInOrder(members, GenerateAll(members, children, level + 1))
    decreases |Replicas(members)| - level, |children|
  {
    hide HasLevel, IsShownUnder, OnTree, Root, Replicas, ParentOf, ChildrenAmong, Descends, Generate, Precedes;
    hide SiblingsInOrder, AreSiblings;
    if children == [] {
      assert SiblingsInOrder(members, []) by { NobodyHasSiblings(members); }
    } else {
      var c := children[0];
      assert c in children;
      var first, rest := Generate(members, Node(c.name), level + 1), GenerateAll(members, children[1..], level + 1);
      SiblingsAreInOrder(members, Node(c.name), level + 1);
      AllSiblingsAreInOrder(members, children[1..], parent, level);
      RowsAreBelow(members, Node(c.name), level + 1);
      AllRowsAreBelow(members, children[1..], parent, level);
      forall r, s | r in first && s in rest && AreSiblings(members, r, s) ensures Precedes(members, r.name, s.name) {
        var i :| 0 <= i < |children[1..]| &&
            Descends(members, Node(s.name), s.level, Node(children[1..][i].name), level + 1);
        assert children[i + 1] == children[1..][i];
        SiblingsBelow(members, r, s, c.name, children[i + 1].name, level + 1);
      }
      SiblingsTogether(members, first, rest);
    }
  }

  lemma NobodyHasSiblings(members: seq<Member>)
    ensures SiblingsInOrder(members, [])
  {}

  // ---------------------------------------------------------------- levels from the tags

  /** A replica of this name whose tag names another replica. */
  ghost predicate Follows(members: seq<Member>, x: Name, p: Name) {
    exists i, k ::
      && 0 <= i < |members| && !members[i].isLeader && members[i].name == x && members[i].replicateFrom == Node(p)
      && 0 <= k < |members| && !members[k].isLeader && members[k].name == p && p != x
  }

  /** A replica of this name whose tag is missing, or names the node itself or no replica. */
  ghost predicate FollowsNobody(members: seq<Member>, x: Name) {
    exists i :: 0 <= i < |members| && !members[i].isLeader && members[i].name == x &&
      (members[i].replicateFrom == Nobody || members[i].replicateFrom == Node(x) ||
       forall k :: 0 <= k < |members| && !members[k].isLeader ==> members[i].replicateFrom != Node(members[k].name))
  }

  ghost predicate IsFirstLeader(members: seq<Member>, x: Name) {
    exists i :: IsFirstLeaderAt(members, x, i)
  }

  predicate IsFirstLeaderAt(members: seq<Member>, x: Name, i: int) {
    && 0 <= i < |members| && members[i].isLeader && members[i].name == x
    && forall k :: 0 <= k < i ==> !members[k].isLeader
  }

  lemma {:induction false} RootIsFirstLeader(members: seq<Member>)
    ensures forall x :: Root(members) == Node(x) <==> IsFirstLeader(members, x)
  {
    if members != [] && !members[0].isLeader {
      var rest := members[1..];
      RootIsFirstLeader(rest);
      forall x, i ensures IsFirstLeaderAt(members, x, i) <==> IsFirstLeaderAt(rest, x, i - 1) {
        if IsFirstLeaderAt(rest, x, i - 1) { assert forall k :: 0 < k < i ==> members[k] == rest[k - 1]; }
        if IsFirstLeaderAt(members, x, i) { assert forall k :: 0 <= k < i - 1 ==> rest[k] == members[k + 1]; }
      }
      forall x ensures IsFirstLeader(members, x) <==> IsFirstLeader(rest, x) {
        if i :| IsFirstLeaderAt(rest, x, i) { assert IsFirstLeaderAt(members, x, i + 1); }
      }
    } else if members != [] {
      assert IsFirstLeaderAt(members, members[0].name, 0);
    }
  }

  lemma ShownUnderIff(members: seq<Member>, x: Name, parent: Parent)
    requires UniqueNames(members)
    ensures parent != Root(members) ==>
        (IsShownUnder(members, x, parent) <==> parent.Node? && Follows(members, x, parent.name))
    ensures parent == Root(members) ==> (IsShownUnder(members, x, parent) <==> FollowsNobody(members, x))
  {
    hide UniqueNames, Follows, FollowsNobody, IsShownUnder;
    if IsShownUnder(members, x, parent) { ShownFollows(members, x, parent); }
    if parent.Node? && Follows(members, x, parent.name) { FollowerIsShown(members, x, parent.name); }
    if FollowsNobody(members, x) { OtherIsShown(members, x); }
  }

  lemma ShownFollows(members: seq<Member>, x: Name, parent: Parent)
    requires IsShownUnder(members, x, parent)
    ensures (parent.Node? && Follows(members, x, parent.name)) || (parent == Root(members) && FollowsNobody(members, x))
  {
    var m :| m in members && m.name == x && !m.isLeader && ParentOf(members, m) == parent;
    var i :| 0 <= i < |members| && members[i] == m;
    if m.replicateFrom.Node? && m.replicateFrom.name in Replicas(members) && m.replicateFrom.name != x {
      var k :| 0 <= k < |members| && !members[k].isLeader && members[k].name == m.replicateFrom.name;
      assert Follows(members, x, m.replicateFrom.name);
    } else {
      hide Root;
      assert FollowsNobody(members, x);
    }
  }

  lemma FollowerIsShown(members: seq<Member>, x: Name, p: Name)
    requires UniqueNames(members) && Follows(members, x, p)
    ensures IsShownUnder(members, x, Node(p)) && Node(p) != Root(members)
  {
    var i, k :| && 0 <= i < |members| && !members[i].isLeader && members[i].name == x
                && members[i].replicateFrom == Node(p) && 0 <= k < |members| && !members[k].isLeader
                && members[k].name == p && p != x;
    RootIsNoReplica(members, members[k]);
    hide Root, UniqueNames;
    assert members[i] in members && p in Replicas(members);
  }

  lemma OtherIsShown(members: seq<Member>, x: Name)
    requires FollowsNobody(members, x)
    ensures IsShownUnder(members, x, Root(members))
  {
    hide Root;
    var i :| 0 <= i < |members| && !members[i].isLeader && members[i].name == x &&
      (members[i].replicateFrom == Nobody || members[i].replicateFrom == Node(x) ||
       forall k :: 0 <= k < |members| && !members[k].isLeader ==> members[i].replicateFrom != Node(members[k].name));
    assert members[i] in members && ParentOf(members, members[i]) == Root(members);
  }

  /** What a level is: at level 0 the first leader, at level 1 the replicas that follow nobody,
      and below any printed replica those that follow it. */
  lemma LevelsFromTags(members: seq<Member>, x: Name)
    requires UniqueNames(members)
    ensures OnTree(members, Node(x), 0) <==> IsFirstLeader(members, x)
    ensures OnTree(members, Node(x), 1) <==> FollowsNobody(members, x)
    ensures forall k: nat | k >= 2 :: OnTree(members, Node(x), k) <==> FollowsRow(members, x, k - 1)
  {
    RootIsFirstLeader(members);
    ShownUnderIff(members, x, Root(members));
    LevelOneIff(members, x);
    forall k: nat | k >= 2 ensures OnTree(members, Node(x), k) <==> FollowsRow(members, x, k - 1) {
      LowerLevelIff(members, x, k - 2);
    }
  }

  ghost predicate FollowsRow(members: seq<Member>, x: Name, level: nat) {
    exists p :: Follows(members, x, p) && OnTree(members, Node(p), level)
  }

  lemma ShownIsNoRoot(members: seq<Member>, x: Name, parent: Parent)
    requires UniqueNames(members) && IsShownUnder(members, x, parent)
    ensures Node(x) != Root(members)
  {
    var m :| m in members && m.name == x && !m.isLeader && ParentOf(members, m) == parent;
    RootIsNoReplica(members, m);
  }

  lemma LevelOneIff(members: seq<Member>, x: Name)
    requires UniqueNames(members)
    ensures OnTree(members, Node(x), 1) <==> IsShownUnder(members, x, Root(members))
  {
    hide UniqueNames, IsShownUnder;
    if IsShownUnder(members, x, Root(members)) {
      ShownIsNoRoot(members, x, Root(members));
      assert HasLevel(members, x, 1);
    }
  }

  lemma LowerLevelIff(members: seq<Member>, x: Name, k: nat)
    requires UniqueNames(members)
    ensures OnTree(members, Node(x), k + 2) <==> FollowsRow(members, x, k + 1)
  {
    hide UniqueNames, IsShownUnder, Follows, Root;
    if OnTree(members, Node(x), k + 2) {
      var q :| IsShownUnder(members, x, q) && q != Root(members) && q.Node? && HasLevel(members, q.name, k + 1);
      ShownUnderIff(members, x, q);
      assert OnTree(members, Node(q.name), k + 1);
    }
    if p :| Follows(members, x, p) && OnTree(members, Node(p), k + 1) {
      ShownUnderIff(members, x, Node(p));
      ShownIsNoRoot(members, x, Node(p));
      assert HasLevel(members, x, k + 2);
    }
  }

  /** How a row is displayed: the name begins two columns further on each level down, behind a
      plus sign. */
  lemma DisplayShape(r: Row)
    ensures |r.Display()| == 2 * r.level + |r.name| && r.Display()[2 * r.level..] == r.name
    ensures r.level > 0 ==> r.Display()[2 * r.level - 2..2 * r.level] == "+ "
    ensures forall i :: 0 <= i < 2 * r.level - 2 ==> r.Display()[i] == ' '
  {}

  // ---------------------------------------------------------------- topology_sort

  lemma GenerateAllFrom(members: seq<Member>, children: seq<Member>, i: nat, level: nat)
    requires UniqueNames(members) && i < |children| && forall c <- children :: OnTree(members, Node(c.name), level)
    ensures GenerateAll(members, children[i..], level) ==
        Generate(members, Node(children[i].name), level) + GenerateAll(members, children[i + 1..], level)
  {
    hide UniqueNames, OnTree, Generate;
    assert children[i..][1..] == children[i + 1..];
  }

  lemma ChildrenOf(members: seq<Member>, topology: map<Parent, seq<Member>>, parent: Parent, level: nat)
    requires UniqueNames(members) && OnTree(members, parent, level) && Fills(members, members, topology)
    ensures var children := Listed(topology, parent);
      && level <= |Replicas(members)|
      && (forall c <- children :: OnTree(members, Node(c.name), level + 1))
      && Generate(members, parent, level) ==
           (if parent.Node? then [Row(parent.name, level)] else []) + GenerateAll(members, children, level + 1)
  {
    ChildrenAreOnTree(members, parent, level);
    assert Listed(topology, parent) == Children(members, parent);
    hide UniqueNames, OnTree, GenerateAll, Fills, Listed, Children;
  }

  /** `generate_topology` on the dictionary that was filled. */
  method GenerateTopology(ghost members: seq<Member>, topology: map<Parent, seq<Member>>, parent: Parent, level: nat)
    returns (rows: seq<Row>)
    requires UniqueNames(members) && OnTree(members, parent, level) && Fills(members, members, topology)
    ensures rows == Generate(members, parent, level)
    decreases |Replicas(members)| + 1 - level
  {
    hide OnTree, Replicas, UniqueNames, Fills, Listed, Generate, GenerateAll;
    var children := Listed(topology, parent);
    ChildrenOf(members, topology, parent, level);
    rows := if parent.Node? then [Row(parent.name, level)] else [];
    ghost var top := rows;
    assert children[0..] == children;
    for i := 0 to |children|
      invariant rows + GenerateAll(members, children[i..], level + 1) == top + GenerateAll(members, children, level + 1)
    {
      GenerateAllFrom(members, children, i, level + 1);
      var below := GenerateTopology(members, topology, Node(children[i].name), level + 1);
      rows := rows + below;
    }
    NoRows(members, level + 1);
  }

  lemma NoRows(members: seq<Member>, level: nat)
    requires UniqueNames(members)
    ensures GenerateAll(members, [], level) == []
  {}

  /** `topology_sort`: what is printed is the leader and exactly the replicas whose chain of
      parents reaches the root, each once, at its level, after its parent, for every graph of
      `replicatefrom` tags, with cycles, self-references and names of nobody. */
  method TopologySort(members: seq<Member>) returns (rows: seq<Row>)
    requires UniqueNames(members)
    ensures DistinctNames(rows)
    ensures forall x: Name, k: nat :: Row(x, k) in rows <==> OnTree(members, Node(x), k)
    ensures ParentsFirst(members, rows, if Root(members).Node? then 0 else 1)
    ensures SiblingsInOrder(members, rows)
  {
    var topology := FillTopology(members);
    rows := GenerateTopology(members, topology, Root(members), 0);
    NamesAreDistinct(members, Root(members), 0);
    ParentsComeFirst(members, Root(members), 0);
    SiblingsAreInOrder(members, Root(members), 0);
    RowsAreBelow(members, Root(members), 0);
    forall x: Name, k: nat ensures Row(x, k) in rows <==> OnTree(members, Node(x), k) {
      if OnTree(members, Node(x), k) {
        if k > 0 { LevelIsChain(members, x, k); }
        BelowHasRow(members, Root(members), 0, x, k);
      }
    }
  }
}
