/** The four-level translation tree as the processor reads it (Intel SDM volume 3A, section 4.5),
    and the two edits that the kernel makes to it. */
module PageTable {
  import opened Words

  datatype Option<T> = None | Some(value: T)

  function Zeros(n: nat): (s: seq<u64>)
    ensures |s| == n && forall i | 0 <= i < n :: s[i] == 0
  {
    seq(n, i => 0)
  }

  type Table = s: seq<u64> | |s| == 512 witness Zeros(512)
  type Memory = map<nat, Table>   // frame number to its 512 words

  const ZERO_TABLE: Table := Zeros(512)

  // ---- Entries ----

  predicate Present(e: u64) { e % 2 == 1 }

  predicate LargePage(e: u64) { e / 128 % 2 == 1 }

  // Bits 12 to 51.
  function Target(e: u64): nat { e / 4096 % 0x100_0000_0000 }

  // The entry of a level-4, 3 or 2 table that points at another table.
  predicate Links(level: nat, e: u64) { Present(e) && level >= 2 && !(level <= 3 && LargePage(e)) }

  datatype Translation = Unmapped | Mapped(level: nat, entry: u64) | OutsideMemory

  // What an entry that ends the walk means.
  function Meaning(level: nat, e: u64): Translation {
    if Present(e) then Mapped(level, e) else Unmapped
  }

  // ---- The walk ----

  const PAGES: nat := 0x10_0000_0000   // 2^36 page numbers: bits 12 to 47 of an address

  // A page number without its lowest `level` groups of nine bits.
  function Prefix(level: nat, vpn: nat): nat {
    if level == 0 then vpn else Prefix(level - 1, vpn) / 512
  }

  function Walk(mem: Memory, t: nat, level: nat, vpn: nat): Translation
    requires 1 <= level <= 4
    decreases level, vpn
  {
    if t !in mem then OutsideMemory else
      var e := mem[t][Prefix(level - 1, vpn) % 512];
      if Links(level, e) then Walk(mem, Target(e), level - 1, vpn) else Meaning(level, e)
  }

  // ---- The tree ----

  // A place for a table: its level and the prefix of the pages below it.
  datatype Node = Node(level: nat, prefix: nat)

  // The table that entry i of a table points at.
  function Follow(mem: Memory, s: nat, level: nat, i: nat): Option<nat>
    requires i < 512
  {
    if s in mem && Links(level, mem[s][i]) then Some(Target(mem[s][i])) else None
  }

  function TableAt(mem: Memory, root: nat, level: nat, prefix: nat): Option<nat>
    requires 1 <= level <= 4
    decreases 4 - level, prefix
  {
    if level == 4 then (if prefix == 0 then Some(root) else None)
    else
      match TableAt(mem, root, level + 1, prefix / 512)
      case None => None
      case Some(s) => Follow(mem, s, level + 1, prefix % 512)
  }

  function Child(node: Node, i: nat): Node
    requires node.level > 0
  {
    Node(node.level - 1, node.prefix * 512 + i)
  }

  lemma ChildOf(node: Node, i: nat, l: nat, p: nat)
    requires node.level > 0 && i < 512
    ensures Node(l, p) == Child(node, i) <==> Node(l + 1, p / 512) == node && p % 512 == i
  {
  }

  // `nodes` gives every table of the tree its one place.
  ghost predicate TreeInvariant(mem: Memory, root: nat, nodes: map<nat, Node>) {
    && (forall t | t in nodes :: t in mem && 1 <= nodes[t].level <= 4
          && TableAt(mem, root, nodes[t].level, nodes[t].prefix) == Some(t))
    && (forall l, p: nat | 1 <= l <= 4 && TableAt(mem, root, l, p).Some? ::
          TableAt(mem, root, l, p).value in nodes && nodes[TableAt(mem, root, l, p).value] == Node(l, p))
  }

  // The tree invariant behind a counter: the verifier unfolds a recursive definition only a
  // step or two on its own, so the invariant enters a proof where TreeFacts is called.
  ghost predicate Behind(n: nat, mem: Memory, root: nat, nodes: map<nat, Node>)
    decreases n, root
  {
    if n > 0 then Behind(n - 1, mem, root, nodes) else TreeInvariant(mem, root, nodes)
  }

  ghost predicate WellFormed(mem: Memory, root: nat, nodes: map<nat, Node>) { Behind(4, mem, root, nodes) }

  lemma TreeFacts(mem: Memory, root: nat, nodes: map<nat, Node>)
    ensures WellFormed(mem, root, nodes) <==> TreeInvariant(mem, root, nodes)
  {
    assert Behind(1, mem, root, nodes) <==> TreeInvariant(mem, root, nodes);
    assert Behind(3, mem, root, nodes) <==> Behind(1, mem, root, nodes);
  }

  // Which table entry is consulted for page vpn at a level.
  predicate Through(node: Node, i: nat, vpn: nat) {
    1 <= node.level <= 4 && Prefix(node.level, vpn) == node.prefix && Prefix(node.level - 1, vpn) % 512 == i
  }

  lemma RootOfAll(vpn: nat)
    requires vpn < PAGES
    ensures Prefix(4, vpn) == 0
  {
    assert Prefix(1, vpn) == vpn / 512;
    assert Prefix(2, vpn) == Prefix(1, vpn) / 512;
    assert Prefix(3, vpn) == Prefix(2, vpn) / 512;
    assert Prefix(3, vpn) < 512;
  }

  lemma RootAt(mem: Memory, root: nat, vpn: nat)
    requires vpn < PAGES
    ensures TableAt(mem, root, 4, Prefix(4, vpn)) == Some(root)
  {
    RootOfAll(vpn);
  }

  // The walk from the root passes the table placed on its way.
  lemma {:induction false} WalkFrom(mem: Memory, root: nat, level: nat, vpn: nat, t: nat)
    requires 1 <= level <= 4 && vpn < PAGES
    requires TableAt(mem, root, level, Prefix(level, vpn)) == Some(t)
    ensures Walk(mem, root, 4, vpn) == Walk(mem, t, level, vpn)
    decreases 4 - level
  {
    if level == 4 {
      RootOfAll(vpn);
    } else {
      var s := TableAt(mem, root, level + 1, Prefix(level + 1, vpn)).value;
      WalkFrom(mem, root, level + 1, vpn, s);
    }
  }

  // Below a missing table there are none.
  lemma {:induction false} NoneBelow(mem: Memory, root: nat, l: nat, m: nat, vpn: nat)
    requires 1 <= m <= l <= 4 && TableAt(mem, root, l, Prefix(l, vpn)) == None
    ensures TableAt(mem, root, m, Prefix(m, vpn)) == None
    decreases l - m
  {
    if m < l { NoneBelow(mem, root, l, m + 1, vpn); }
  }

  // ---- Edit 1: hang a new, zeroed table in an empty slot ----

  function Installed(mem: Memory, t: nat, i: nat, f: nat, e: u64): Memory
    requires t in mem && i < 512
  {
    Replaced(mem[f := ZERO_TABLE], t, i, e)
  }

  ghost predicate CanInstall(mem: Memory, root: nat, nodes: map<nat, Node>, t: nat, i: nat, f: nat, e: u64) {
    && TreeInvariant(mem, root, nodes) && t in nodes && nodes[t].level > 1 && i < 512 && f !in nodes
    && !Present(mem[t][i]) && Links(nodes[t].level, e) && Target(e) == f
  }

  lemma InstallFollow(mem: Memory, root: nat, nodes: map<nat, Node>,
                      t: nat, i: nat, f: nat, e: u64, s: nat, level: nat, k: nat)
    requires CanInstall(mem, root, nodes, t, i, f, e) && s in nodes && k < 512
    ensures nodes[s].level == level ==>
      Follow(Installed(mem, t, i, f, e), s, level, k) == if s == t && k == i then Some(f) else Follow(mem, s, level, k)
    ensures Follow(Installed(mem, t, i, f, e), f, level, k) == None
  {
  }

  lemma {:induction false} InstallTableAt(mem: Memory, root: nat, nodes: map<nat, Node>,
                                          t: nat, i: nat, f: nat, e: u64, l: nat, p: nat)
    requires CanInstall(mem, root, nodes, t, i, f, e) && 1 <= l <= 4
    ensures TableAt(Installed(mem, t, i, f, e), root, l, p) ==
      if Node(l, p) == Child(nodes[t], i) then Some(f) else TableAt(mem, root, l, p)
    decreases 4 - l
  {
    ChildOf(nodes[t], i, l, p);
    if l < 4 {
      var mem', q, k := Installed(mem, t, i, f, e), p / 512, p % 512;
      InstallTableAt(mem, root, nodes, t, i, f, e, l + 1, q);
      if Node(l + 1, q) == Child(nodes[t], i) {
        EmptyPlace(mem, root, nodes, t, i, f, e, l + 1, q);
        InstallFollow(mem, root, nodes, t, i, f, e, t, l + 1, k);
      } else if TableAt(mem, root, l + 1, q).Some? {
        var s := TableAt(mem, root, l + 1, q).value;
        assert s in nodes && nodes[s] == Node(l + 1, q);
        InstallFollow(mem, root, nodes, t, i, f, e, s, l + 1, k);
      }
    }
  }

  // Before the edit there is no table in the new table's place.
  lemma EmptyPlace(mem: Memory, root: nat, nodes: map<nat, Node>, t: nat, i: nat, f: nat, e: u64, l: nat, p: nat)
    requires CanInstall(mem, root, nodes, t, i, f, e) && Node(l, p) == Child(nodes[t], i)
    ensures TableAt(mem, root, l, p) == None
  {
    ChildOf(nodes[t], i, l, p);
    assert TableAt(mem, root, l + 1, p / 512) == Some(t);
  }

  // What the walk reads in table s after the edit.
  lemma InstallReads(mem: Memory, root: nat, nodes: map<nat, Node>,
                     t: nat, i: nat, f: nat, e: u64, s: nat, l: nat, p: nat, k: nat)
    requires CanInstall(mem, root, nodes, t, i, f, e) && 1 <= l <= 4 && k < 512
    requires TableAt(mem, root, l, p) == Some(s)
    ensures s in mem && s in Installed(mem, t, i, f, e)
    ensures if s == t && k == i
      then !Present(mem[s][k]) && Installed(mem, t, i, f, e)[s][k] == e && l > 1 && Links(l, e) && Target(e) == f
      else Installed(mem, t, i, f, e)[s][k] == mem[s][k]
  {
    assert s in nodes && nodes[s] == Node(l, p);
  }

  lemma WalkZeros(mem: Memory, f: nat, l: nat, vpn: nat)
    requires f in mem && mem[f] == ZERO_TABLE && 1 <= l <= 4
    ensures Walk(mem, f, l, vpn) == Unmapped
  {
  }

  lemma {:induction false} InstallWalk(mem: Memory, root: nat, nodes: map<nat, Node>,
                                       t: nat, i: nat, f: nat, e: u64, s: nat, l: nat, vpn: nat)
    requires CanInstall(mem, root, nodes, t, i, f, e) && 1 <= l <= 4
    requires TableAt(mem, root, l, Prefix(l, vpn)) == Some(s)
    ensures Walk(Installed(mem, t, i, f, e), s, l, vpn) == Walk(mem, s, l, vpn)
    decreases l
  {
    var mem' := Installed(mem, t, i, f, e);
    var k := Prefix(l - 1, vpn) % 512;
    InstallReads(mem, root, nodes, t, i, f, e, s, l, Prefix(l, vpn), k);
    if s == t && k == i {
      WalkZeros(mem', f, l - 1, vpn);
    } else if Links(l, mem[s][k]) {
      assert TableAt(mem, root, l - 1, Prefix(l - 1, vpn)) == Follow(mem, s, l, k);
      InstallWalk(mem, root, nodes, t, i, f, e, Target(mem[s][k]), l - 1, vpn);
    }
  }

  lemma InstallKeepsTree(mem: Memory, root: nat, nodes: map<nat, Node>, t: nat, i: nat, f: nat, e: u64)
    requires CanInstall(mem, root, nodes, t, i, f, e)
    ensures TreeInvariant(Installed(mem, t, i, f, e), root, nodes[f := Child(nodes[t], i)])
    ensures forall vpn: nat | vpn < PAGES ::
      Walk(Installed(mem, t, i, f, e), root, 4, vpn) == Walk(mem, root, 4, vpn)
  {
    var mem' := Installed(mem, t, i, f, e);
    var node := Child(nodes[t], i);
    EmptyPlace(mem, root, nodes, t, i, f, e, node.level, node.prefix);
    forall l, p: nat | 1 <= l <= 4
      ensures TableAt(mem', root, l, p) == if Node(l, p) == node then Some(f) else TableAt(mem, root, l, p)
    {
      InstallTableAt(mem, root, nodes, t, i, f, e, l, p);
    }
    forall vpn: nat | vpn < PAGES ensures Walk(mem', root, 4, vpn) == Walk(mem, root, 4, vpn) {
      RootOfAll(vpn);
      InstallWalk(mem, root, nodes, t, i, f, e, root, 4, vpn);
    }
  }

  // ---- Edit 2: replace an entry that ends the walk by another one ----

  function Replaced(mem: Memory, t: nat, i: nat, e: u64): Memory
    requires t in mem && i < 512
  {
    mem[t := mem[t][i := e]]
  }

  ghost predicate CanReplace(mem: Memory, root: nat, nodes: map<nat, Node>, t: nat, i: nat, e: u64) {
    && TreeInvariant(mem, root, nodes) && t in nodes && i < 512
    && !Links(nodes[t].level, mem[t][i]) && !Links(nodes[t].level, e)
  }

  lemma ReplaceFollow(mem: Memory, root: nat, nodes: map<nat, Node>, t: nat, i: nat, e: u64, s: nat, k: nat)
    requires CanReplace(mem, root, nodes, t, i, e) && s in nodes && k < 512
    ensures Follow(Replaced(mem, t, i, e), s, nodes[s].level, k) == Follow(mem, s, nodes[s].level, k)
  {
  }

  lemma {:induction false} ReplaceTableAt(mem: Memory, root: nat, nodes: map<nat, Node>,
                                          t: nat, i: nat, e: u64, l: nat, p: nat)
    requires CanReplace(mem, root, nodes, t, i, e) && 1 <= l <= 4
    ensures TableAt(Replaced(mem, t, i, e), root, l, p) == TableAt(mem, root, l, p)
    decreases 4 - l
  {
    if l < 4 {
      ReplaceTableAt(mem, root, nodes, t, i, e, l + 1, p / 512);
      var s := TableAt(mem, root, l + 1, p / 512);
      if s.Some? { ReplaceFollow(mem, root, nodes, t, i, e, s.value, p % 512); }
    }
  }

  lemma {:induction false} ReplaceWalk(mem: Memory, root: nat, nodes: map<nat, Node>,
                                       t: nat, i: nat, e: u64, s: nat, l: nat, vpn: nat)
    requires CanReplace(mem, root, nodes, t, i, e) && 1 <= l <= 4
    requires TableAt(mem, root, l, Prefix(l, vpn)) == Some(s)
    requires !Through(nodes[t], i, vpn)
    ensures Walk(Replaced(mem, t, i, e), s, l, vpn) == Walk(mem, s, l, vpn)
    decreases l
  {
    var k := Prefix(l - 1, vpn) % 512;
    assert s in nodes && s in mem && nodes[s] == Node(l, Prefix(l, vpn));
    assert Replaced(mem, t, i, e)[s][k] == mem[s][k];
    if Links(l, mem[s][k]) {
      assert TableAt(mem, root, l - 1, Prefix(l - 1, vpn)) == Follow(mem, s, l, k);
      ReplaceWalk(mem, root, nodes, t, i, e, Target(mem[s][k]), l - 1, vpn);
    }
  }

  lemma ReplaceKeepsTree(mem: Memory, root: nat, nodes: map<nat, Node>, t: nat, i: nat, e: u64)
    requires CanReplace(mem, root, nodes, t, i, e)
    ensures TreeInvariant(Replaced(mem, t, i, e), root, nodes)
    ensures forall vpn: nat | vpn < PAGES ::
      Walk(Replaced(mem, t, i, e), root, 4, vpn) ==
      if Through(nodes[t], i, vpn) then Meaning(nodes[t].level, e) else Walk(mem, root, 4, vpn)
  {
    var mem' := Replaced(mem, t, i, e);
    forall l, p: nat | 1 <= l <= 4 ensures TableAt(mem', root, l, p) == TableAt(mem, root, l, p) {
      ReplaceTableAt(mem, root, nodes, t, i, e, l, p);
    }
    forall vpn: nat | vpn < PAGES
      ensures Walk(mem', root, 4, vpn) ==
        if Through(nodes[t], i, vpn) then Meaning(nodes[t].level, e) else Walk(mem, root, 4, vpn)
    {
      RootOfAll(vpn);
      if Through(nodes[t], i, vpn) {
        WalkFrom(mem', root, nodes[t].level, vpn, t);
      } else {
        ReplaceWalk(mem, root, nodes, t, i, e, root, 4, vpn);
      }
    }
  }

  // ---- A store to a frame that is no table ----

  lemma {:induction false} StoreTableAt(mem: Memory, root: nat, nodes: map<nat, Node>, f: nat, page: Table,
                                        l: nat, p: nat)
    requires TreeInvariant(mem, root, nodes) && f !in nodes && 1 <= l <= 4
    ensures TableAt(mem[f := page], root, l, p) == TableAt(mem, root, l, p)
    decreases 4 - l
  {
    if l < 4 { StoreTableAt(mem, root, nodes, f, page, l + 1, p / 512); }
  }

  lemma {:induction false} StoreWalk(mem: Memory, root: nat, nodes: map<nat, Node>, f: nat, page: Table,
                                     s: nat, l: nat, vpn: nat)
    requires TreeInvariant(mem, root, nodes) && f !in nodes && 1 <= l <= 4
    requires TableAt(mem, root, l, Prefix(l, vpn)) == Some(s)
    ensures Walk(mem[f := page], s, l, vpn) == Walk(mem, s, l, vpn)
    decreases l
  {
    var k := Prefix(l - 1, vpn) % 512;
    assert s in nodes;
    if Links(l, mem[s][k]) {
      StoreWalk(mem, root, nodes, f, page, Target(mem[s][k]), l - 1, vpn);
    }
  }

  lemma StoreKeepsTree(mem: Memory, root: nat, nodes: map<nat, Node>, f: nat, page: Table)
    requires TreeInvariant(mem, root, nodes) && f !in nodes
    ensures TreeInvariant(mem[f := page], root, nodes)
    ensures forall vpn: nat | vpn < PAGES :: Walk(mem[f := page], root, 4, vpn) == Walk(mem, root, 4, vpn)
  {
    var mem' := mem[f := page];
    forall l, p: nat | 1 <= l <= 4 ensures TableAt(mem', root, l, p) == TableAt(mem, root, l, p) {
      StoreTableAt(mem, root, nodes, f, page, l, p);
    }
    forall vpn: nat | vpn < PAGES ensures Walk(mem', root, 4, vpn) == Walk(mem, root, 4, vpn) {
      RootOfAll(vpn);
      StoreWalk(mem, root, nodes, f, page, root, 4, vpn);
    }
  }
}
