/**
 The table of registered roots: an array of addresses with their owners, indexed by doubly linked hash chains threaded
 through it. It behaves as a plain sequence for every hash function.
 */
module RootTable {
  import opened Basics

  // ---------------------------------------------------------------- doubly linked chains

  function Set(s: seq<int>, i: int, v: int): seq<int>
    requires i < |s|
  {
    if i >= 0 then s[i := v] else s
  }

  /** The links of one place in a chain. */
  ghost predicate LinkAt(next: seq<int>, previous: seq<int>, chain: seq<int>, j: int) {
    && 0 <= j < |chain| && 0 <= chain[j] < |next| && |previous| == |next|
    && next[chain[j]] == At(chain, j + 1) && previous[chain[j]] == At(chain, j - 1)
  }

  /** The links thread through exactly this chain, forwards and back. */
  ghost predicate Follows(next: seq<int>, previous: seq<int>, chain: seq<int>) {
    && |next| == |previous| && Distinct(chain)
    && (forall j :: 0 <= j < |chain| ==> LinkAt(next, previous, chain, j))
  }

  /** Changing the links of some indices leaves chains they are not on as they are. */
  lemma FollowsElsewhere(next: seq<int>, previous: seq<int>, next': seq<int>, previous': seq<int>, chain: seq<int>, changed: set<int>)
    requires Follows(next, previous, chain) && |next'| == |previous'| == |next| && forall x <- changed :: x !in chain
    requires forall k :: 0 <= k < |next| && k !in changed ==> next'[k] == next[k] && previous'[k] == previous[k]
    ensures Follows(next', previous', chain)
  {
    forall j | 0 <= j < |chain| ensures LinkAt(next', previous', chain, j) {
      assert LinkAt(next, previous, chain, j) && chain[j] in chain;
    }
  }

  lemma PushFront(next: seq<int>, previous: seq<int>, chain: seq<int>, i: nat)
    requires Follows(next, previous, chain) && i < |next| && i !in chain
    ensures At(chain, 0) < |next|
    ensures Follows(next[i := At(chain, 0)], Set(previous[i := -1], At(chain, 0), i), [i] + chain)
  {
    var longer, head := [i] + chain, At(chain, 0);
    assert chain != [] ==> LinkAt(next, previous, chain, 0);
    var next', previous' := next[i := head], Set(previous[i := -1], head, i);
    forall j | 0 <= j < |longer| ensures LinkAt(next', previous', longer, j) {
      if j > 0 {
        assert longer[j] == chain[j - 1];
        assert LinkAt(next, previous, chain, j - 1);
      }
    }
  }

  function Without(chain: seq<int>, j: nat): (shorter: seq<int>)
    requires j < |chain|
    ensures |shorter| == |chain| - 1
    ensures forall k :: 0 <= k < |shorter| ==> shorter[k] == chain[if k < j then k else k + 1]
  {
    chain[..j] + chain[j + 1..]
  }

  lemma LinksInRange(next: seq<int>, previous: seq<int>, chain: seq<int>, j: nat)
    requires Follows(next, previous, chain) && j < |chain|
    ensures At(chain, j - 1) < |next| && At(chain, j + 1) < |next|
  {
    assert LinkAt(next, previous, chain, j);
    assert j > 0 ==> LinkAt(next, previous, chain, j - 1);
    assert j + 1 < |chain| ==> LinkAt(next, previous, chain, j + 1);
  }

  lemma SpliceOut(next: seq<int>, previous: seq<int>, chain: seq<int>, j: nat)
    requires Follows(next, previous, chain) && j < |chain|
    ensures var p, n := At(chain, j - 1), At(chain, j + 1);
            && p < |next| && n < |next|
            && Follows(Set(next, p, n), Set(previous, n, p), Without(chain, j))
  {
    LinksInRange(next, previous, chain, j);
    var p, n, shorter := At(chain, j - 1), At(chain, j + 1), Without(chain, j);
    forall k | 0 <= k < |shorter| ensures LinkAt(Set(next, p, n), Set(previous, n, p), shorter, k) {
      var m := if k < j then k else k + 1;
      assert LinkAt(next, previous, chain, m);
    }
  }

  lemma Replace(next: seq<int>, previous: seq<int>, chain: seq<int>, j: nat, to: nat)
    requires Follows(next, previous, chain) && j < |chain| && to < |next| && to !in chain
    ensures var p, n := At(chain, j - 1), At(chain, j + 1);
            && p < |next| && n < |next|
            && Follows(Set(next[to := n], p, to), Set(previous[to := p], n, to), chain[j := to])
  {
    LinksInRange(next, previous, chain, j);
    var p, n, moved := At(chain, j - 1), At(chain, j + 1), chain[j := to];
    var next', previous' := Set(next[to := n], p, to), Set(previous[to := p], n, to);
    forall k | 0 <= k < |moved| ensures LinkAt(next', previous', moved, k) {
      assert LinkAt(next, previous, chain, k);
      assert chain[k] in chain;
    }
  }

  // ---------------------------------------------------------------- the table

  datatype Table = Table(roots: seq<int>, owners: seq<int>, next: seq<int>, previous: seq<int>, buckets: seq<int>)
  {
    predicate Sized() {
      |roots| == |owners| == |next| == |previous| && |buckets| == 2 * |roots|
    }
  }

  function Bucket(hash: int -> nat, size: nat, root: int): (b: nat)
    requires size > 0
    ensures b < size
  {
    hash(root) % size
  }

  /** The chains, one for each bucket, partition the linked indices. */
  ghost predicate Linked(t: Table, hash: int -> nat, chains: seq<seq<int>>, linked: set<int>) {
    && t.Sized() && |chains| == |t.buckets|
    && (forall i <- linked :: 0 <= i < |t.roots| && i in chains[Bucket(hash, |chains|, t.roots[i])])
    && (forall c: nat :: c < |chains| ==> t.buckets[c] == At(chains[c], 0) && Follows(t.next, t.previous, chains[c]))
    && (forall c: nat, j: nat :: c < |chains| && j < |chains[c]| ==>
          chains[c][j] in linked && Bucket(hash, |chains|, t.roots[chains[c][j]]) == c)
  }

  /** No index is on two chains, and -1 is on none. */
  lemma ChainsApart(t: Table, hash: int -> nat, chains: seq<seq<int>>, linked: set<int>, b: nat, c: nat, x: int)
    requires Linked(t, hash, chains, linked) && b < |chains| && c < |chains| && b != c && (x in chains[b] || x < 0)
    ensures x !in chains[c]
  {
    hide Bucket, Follows;
    if x in chains[b] {
      assert Bucket(hash, |chains|, t.roots[x]) == b;
    }
  }

  /** gc_root_link: puts an index at the head of its bucket's chain. */
  function Link(t: Table, hash: int -> nat, i: nat): Table
    requires t.Sized() && i < |t.roots| && t.buckets[Bucket(hash, |t.buckets|, t.roots[i])] < |t.roots|
  {
    var b := Bucket(hash, |t.buckets|, t.roots[i]);
    var head := t.buckets[b];
    t.(next := t.next[i := head], previous := Set(t.previous[i := -1], head, i), buckets := t.buckets[b := i])
  }

  lemma LinkKeeps(t: Table, hash: int -> nat, chains: seq<seq<int>>, linked: set<int>, i: nat)
    requires Linked(t, hash, chains, linked) && i < |t.roots| && i !in linked
    ensures var b := Bucket(hash, |t.buckets|, t.roots[i]);
            && t.buckets[b] < |t.roots|
            && Linked(Link(t, hash, i), hash, chains[b := [i] + chains[b]], linked + {i})
  {
    hide Bucket, Follows;
    var b := Bucket(hash, |t.buckets|, t.roots[i]);
    PushFront(t.next, t.previous, chains[b], i);
    var t' := Link(t, hash, i);
    forall c: nat | c < |chains| && c != b ensures Follows(t'.next, t'.previous, chains[c]) {
      ChainsApart(t, hash, chains, linked, b, c, t.buckets[b]);
      FollowsElsewhere(t.next, t.previous, t'.next, t'.previous, chains[c], {i, t.buckets[b]});
    }
  }

  /** gc_root_unlink: takes an index out of its chain. */
  function Unlink(t: Table, hash: int -> nat, i: nat): Table
    requires t.Sized() && i < |t.roots| && t.previous[i] < |t.roots| && t.next[i] < |t.roots|
  {
    var p, n := t.previous[i], t.next[i];
    var b := Bucket(hash, |t.buckets|, t.roots[i]);
    t.(next := Set(t.next, p, n), previous := Set(t.previous, n, p),
       buckets := if p >= 0 then t.buckets else t.buckets[b := n])
  }

  lemma ChainLinks(t: Table, hash: int -> nat, chains: seq<seq<int>>, linked: set<int>, i: int) returns (b: nat, j: nat)
    requires Linked(t, hash, chains, linked) && i in linked
    ensures 0 <= i < |t.roots| && b == Bucket(hash, |t.buckets|, t.roots[i]) && j < |chains[b]| && chains[b][j] == i
    ensures t.previous[i] == At(chains[b], j - 1) < |t.roots| && t.next[i] == At(chains[b], j + 1) < |t.roots|
    ensures (t.previous[i] in chains[b] || t.previous[i] < 0) && (t.next[i] in chains[b] || t.next[i] < 0)
    ensures forall k, l :: 0 <= k < l < |chains[b]| ==> chains[b][k] != chains[b][l]
  {
    hide Bucket;
    b := Bucket(hash, |t.buckets|, t.roots[i]);
    j :| 0 <= j < |chains[b]| && chains[b][j] == i;
    assert LinkAt(t.next, t.previous, chains[b], j);
    LinksInRange(t.next, t.previous, chains[b], j);
  }

  lemma UnlinkKeeps(t: Table, hash: int -> nat, chains: seq<seq<int>>, linked: set<int>, i: int) returns (chains': seq<seq<int>>)
    requires Linked(t, hash, chains, linked) && i in linked
    ensures t.Sized() && 0 <= i < |t.roots| && t.previous[i] < |t.roots| && t.next[i] < |t.roots|
    ensures Linked(Unlink(t, hash, i), hash, chains', linked - {i})
  {
    hide Bucket, Follows;
    var b, j := ChainLinks(t, hash, chains, linked, i);
    var chain := chains[b];
    SpliceOut(t.next, t.previous, chain, j);
    var t', shorter := Unlink(t, hash, i), Without(chain, j);
    chains' := chains[b := shorter];
    forall c: nat | c < |chains| && c != b ensures Follows(t'.next, t'.previous, chains[c]) {
      ChainsApart(t, hash, chains, linked, b, c, t.previous[i]);
      ChainsApart(t, hash, chains, linked, b, c, t.next[i]);
      FollowsElsewhere(t.next, t.previous, t'.next, t'.previous, chains[c], {t.previous[i], t.next[i]});
    }
    assert t'.buckets[b] == At(shorter, 0);
    ShorterChain(t, hash, chains, linked, i, b, j);
  }

  /** The same indices less one, on the same chains. */
  lemma ShorterChain(t: Table, hash: int -> nat, chains: seq<seq<int>>, linked: set<int>, i: int, b: nat, j: nat)
    requires Linked(t, hash, chains, linked) && b < |chains| && j < |chains[b]| && chains[b][j] == i
    ensures var chains' := chains[b := Without(chains[b], j)];
            && (forall x <- linked - {i} :: x in chains'[Bucket(hash, |chains|, t.roots[x])])
            && (forall c: nat, k: nat :: c < |chains| && k < |chains'[c]| ==>
                  chains'[c][k] in linked - {i} && Bucket(hash, |chains|, t.roots[chains'[c][k]]) == c)
  {
    hide Bucket;
    var chain, shorter := chains[b], Without(chains[b], j);
    var chains' := chains[b := shorter];
    forall k: nat | k < |shorter| ensures shorter[k] == chain[if k < j then k else k + 1] && shorter[k] != i {
    }
    forall x | x in linked - {i} ensures x in chains'[Bucket(hash, |chains|, t.roots[x])] {
      if Bucket(hash, |chains|, t.roots[x]) == b {
        var k :| 0 <= k < |chain| && chain[k] == x;
        assert shorter[if k < j then k else k - 1] == x;
      }
    }
    forall c: nat, k: nat | c < |chains| && c != b && k < |chains[c]| ensures chains[c][k] != i {
      assert Bucket(hash, |chains|, t.roots[chains[c][k]]) == c && Bucket(hash, |chains|, t.roots[chain[j]]) == b;
    }
  }

  /** Moves an entry, and its place in its chain, to an index that is on no chain. */
  function Move(t: Table, hash: int -> nat, from: nat, to: nat): Table
    requires t.Sized() && from < |t.roots| && to < |t.roots| && t.previous[from] < |t.roots| && t.next[from] < |t.roots|
  {
    var p, n := t.previous[from], t.next[from];
    var b := Bucket(hash, |t.buckets|, t.roots[from]);
    t.(roots := t.roots[to := t.roots[from]], owners := t.owners[to := t.owners[from]],
       next := Set(t.next[to := n], p, to), previous := Set(t.previous[to := p], n, to),
       buckets := if p >= 0 then t.buckets else t.buckets[b := to])
  }

  lemma MoveKeeps(t: Table, hash: int -> nat, chains: seq<seq<int>>, linked: set<int>, from: int, to: nat)
    returns (chains': seq<seq<int>>)
    requires Linked(t, hash, chains, linked) && from in linked && to !in linked && to < |t.roots|
    ensures t.Sized() && 0 <= from < |t.roots| && t.previous[from] < |t.roots| && t.next[from] < |t.roots|
    ensures Linked(Move(t, hash, from, to), hash, chains', linked - {from} + {to})
  {
    hide Bucket, Follows;
    var b, j := ChainLinks(t, hash, chains, linked, from);
    var chain := chains[b];
    Replace(t.next, t.previous, chain, j, to);
    var t', moved := Move(t, hash, from, to), chain[j := to];
    chains' := chains[b := moved];
    forall c: nat | c < |chains| && c != b ensures Follows(t'.next, t'.previous, chains[c]) {
      ChainsApart(t, hash, chains, linked, b, c, t.previous[from]);
      ChainsApart(t, hash, chains, linked, b, c, t.next[from]);
      FollowsElsewhere(t.next, t.previous, t'.next, t'.previous, chains[c], {to, t.previous[from], t.next[from]});
    }
    assert t'.buckets[b] == At(moved, 0);
    RenamedChain(t, hash, chains, linked, from, to, b, j);
  }

  lemma RenamedChain(t: Table, hash: int -> nat, chains: seq<seq<int>>, linked: set<int>, from: int, to: nat, b: nat, j: nat)
    requires Linked(t, hash, chains, linked) && b < |chains| && j < |chains[b]| && chains[b][j] == from
    requires to !in linked && to < |t.roots| && 0 <= from < |t.roots|
    ensures var roots', chains' := t.roots[to := t.roots[from]], chains[b := chains[b][j := to]];
            && (forall x <- linked - {from} + {to} :: 0 <= x < |t.roots| && x in chains'[Bucket(hash, |chains|, roots'[x])])
            && (forall c: nat, k: nat :: c < |chains| && k < |chains'[c]| ==>
                  chains'[c][k] in linked - {from} + {to} && Bucket(hash, |chains|, roots'[chains'[c][k]]) == c)
  {
    hide Bucket;
    var chain, moved := chains[b], chains[b][j := to];
    var chains' := chains[b := moved];
    assert moved[j] == to;
    forall x | x in linked - {from} ensures x in chains'[Bucket(hash, |chains|, t.roots[x])] {
      if Bucket(hash, |chains|, t.roots[x]) == b {
        var k :| 0 <= k < |chain| && chain[k] == x;
        assert moved[k] == x;
      }
    }
    forall c: nat, k: nat | c < |chains| && c != b && k < |chains[c]| ensures chains[c][k] != from {
      assert Bucket(hash, |chains|, t.roots[chains[c][k]]) == c && Bucket(hash, |chains|, t.roots[chain[j]]) == b;
    }
  }

  // ---------------------------------------------------------------- what the table means

  ghost predicate IsLast(s: seq<int>, x: int, i: int) {
    0 <= i < |s| && s[i] == x && forall k :: i < k < |s| ==> s[k] != x
  }

  /** The sequence less the element at i, whose place the last element takes. */
  function RemoveSwap<T>(s: seq<T>, i: nat): seq<T>
    requires i < |s|
  {
    var rest := s[..|s| - 1];
    if i < |rest| then rest[i := s[|s| - 1]] else rest
  }

  /** Exactly the removed element is lost. */
  lemma RemoveSwapLosesOne<T>(s: seq<T>, i: nat)
    requires i < |s|
    ensures multiset(s) == multiset(RemoveSwap(s, i)) + multiset{s[i]}
  {
    var rest := s[..|s| - 1];
    assert s == rest + [s[|s| - 1]];
    if i < |rest| {
      assert rest == rest[..i] + [s[i]] + rest[i + 1..];
      assert RemoveSwap(s, i) == rest[..i] + [s[|s| - 1]] + rest[i + 1..];
    }
  }

  /** Removing the address just added undoes the addition, whatever was registered before. */
  lemma AddThenRemove<T>(roots: seq<int>, data: seq<T>, root: int, datum: T, i: nat)
    requires |data| == |roots| && IsLast(roots + [root], root, i)
    ensures RemoveSwap(roots + [root], i) == roots && RemoveSwap(data + [datum], i) == data
  {
    assert (roots + [root])[|roots|] == root;
    assert i == |roots|;
  }

  predicate Under(n: int, i: int) {
    i < n
  }

  function Below(n: nat): set<int> {
    set i | 0 <= i < n && Under(n, i)
  }

  /** 16, 32, 64 and so on: the sizes for which masking with 2 * size - 1 is a remainder. */
  predicate Doubled(size: nat) {
    size == 16 || (size > 16 && size % 2 == 0 && Doubled(size / 2))
  }

  class Roots {
    const hash: int -> nat
    var table: Table
    var count: nat
    ghost var chains: seq<seq<int>>

    ghost predicate Valid()
      reads this
    {
      && count <= |table.roots| && Linked(table, hash, chains, Below(count))
      && (|table.roots| == 0 || Doubled(|table.roots|))
    }

    ghost function Addresses(): seq<int>
      requires Valid()
      reads this
    {
      table.roots[..count]
    }

    ghost function Owners(): seq<int>
      requires Valid()
      reads this
    {
      table.owners[..count]
    }

    constructor (hash: int -> nat)
      ensures Valid() && Addresses() == [] && Owners() == [] && this.hash == hash
    {
      this.hash, table, count, chains := hash, Table([], [], [], [], []), 0, [];
    }

    /** The growth of hl_add_root_owner: twice the room, every entry linked afresh. */
    method Grow()
      requires Valid() && count == |table.roots|
      modifies this
      ensures Valid() && Addresses() == old(Addresses()) && Owners() == old(Owners())
      ensures count == old(count) < |table.roots| == if old(count) > 0 then 2 * old(count) else 16
    {
      hide Bucket, Follows;
      var size: nat := if count > 0 then 2 * count else 16;
      var blank := seq(size - count, _ => 0);
      var links := seq(size, _ => -1);
      var roots, owners := table.roots + blank, table.owners + blank;
      table := Table(roots, owners, links, links, seq(2 * size, _ => -1));
      chains := seq(2 * size, _ => []);
      EmptyIsLinked(table, hash, chains);
      var i := 0;
      while i < count
        invariant 0 <= i <= count == old(count) && |table.roots| == size && Linked(table, hash, chains, Below(i))
        invariant table.roots == roots && table.owners == owners
      {
        LinkNext(i);
        i := i + 1;
      }
    }

    /** gc_root_link for the next index. */
    method LinkNext(i: nat)
      requires i < |table.roots| && Linked(table, hash, chains, Below(i))
      modifies this`table, this`chains
      ensures Linked(table, hash, chains, Below(i + 1))
      ensures table.roots == old(table.roots) && table.owners == old(table.owners)
    {
      hide Bucket, Follows;
      LinkKeeps(table, hash, chains, Below(i), i);
      var b := Bucket(hash, |table.buckets|, table.roots[i]);
      table := Link(table, hash, i);
      chains := chains[b := [i] + chains[b]];
      assert Below(i) + {i} == Below(i + 1);
    }

    method Add(root: int, owner: int)
      requires Valid()
      modifies this
      ensures Valid()
      ensures Addresses() == old(Addresses()) + [root] && Owners() == old(Owners()) + [owner]
    {
      hide Linked;
      if count == |table.roots| {
        Grow();
      }
      WriteUnlinked(table, hash, chains, count, root, owner);
      table := table.(roots := table.roots[count := root], owners := table.owners[count := owner]);
      LinkNext(count);
      count := count + 1;
    }

    /** The walk of hl_remove_root along one chain, for the highest index registered under this address. */
    method Find(root: int) returns (found: int)
      requires Valid()
      ensures if root in Addresses() then IsLast(Addresses(), root, found) else found == -1
    {
      hide Bucket, LinkAt;
      found := -1;
      if count > 0 {
        ghost var chain := chains[Bucket(hash, |table.buckets|, root)];
        ghost var j: nat := 0;
        var i := table.buckets[Bucket(hash, |table.buckets|, root)];
        while i >= 0
          invariant j <= |chain| && i == At(chain, j)
          invariant found == -1 || (0 <= found < count && table.roots[found] == root)
          invariant forall k :: 0 <= k < j && table.roots[chain[k]] == root ==> chain[k] <= found
          decreases |chain| - j
        {
          NextOnChain(table, hash, chains, Below(count), root, j);
          if table.roots[i] == root && i > found {
            found := i;
          }
          i, j := table.next[i], j + 1;
        }
        forall k | 0 <= k < count && table.roots[k] == root ensures k <= found {
          assert k in Below(count) && k in chain;
        }
      }
    }

    /** hl_remove_root: forgets the latest registration of the address; the last entry takes its place. */
    method Remove(root: int)
      requires Valid()
      modifies this
      ensures Valid()
      ensures root !in old(Addresses()) ==> Addresses() == old(Addresses()) && Owners() == old(Owners())
      ensures root in old(Addresses()) ==>
                exists i: nat :: && IsLast(old(Addresses()), root, i) && Addresses() == RemoveSwap(old(Addresses()), i)
                            && Owners() == RemoveSwap(old(Owners()), i)
    {
      hide Linked;
      var found := Find(root);
      if found >= 0 {
        ghost var moved := DeleteKeeps(table, hash, chains, count - 1, found);
        count := count - 1;
        table := Unlink(table, hash, found);
        if found != count {
          table := Move(table, hash, count, found);
        }
        chains := moved;
        assert IsLast(old(Addresses()), root, found);
      }
    }
  }

  /** Unlinking an entry and moving the last one into its place. */
  lemma DeleteKeeps(t: Table, hash: int -> nat, chains: seq<seq<int>>, last: nat, found: nat) returns (chains': seq<seq<int>>)
    requires Linked(t, hash, chains, Below(last + 1)) && found <= last
    ensures t.Sized() && last < |t.roots| && t.previous[found] < |t.roots| && t.next[found] < |t.roots|
    ensures var u := Unlink(t, hash, found);
            && u.Sized() && u.previous[last] < |t.roots| && u.next[last] < |t.roots|
            && var d := if found != last then Move(u, hash, last, found) else u;
            && Linked(d, hash, chains', Below(last))
            && d.roots[..last] == RemoveSwap(t.roots[..last + 1], found)
            && d.owners[..last] == RemoveSwap(t.owners[..last + 1], found)
  {
    hide Linked, Bucket;
    assert found in Below(last + 1) && last in Below(last + 1);
    LinkedWithin(t, hash, chains, Below(last + 1), last);
    var shorter := UnlinkKeeps(t, hash, chains, Below(last + 1), found);
    var u := Unlink(t, hash, found);
    if found != last {
      chains' := MoveKeeps(u, hash, shorter, Below(last + 1) - {found}, last, found);
      assert Below(last + 1) - {found} - {last} + {found} == Below(last);
    } else {
      chains' := shorter;
      assert Below(last + 1) - {found} == Below(last);
    }
  }

  lemma LinkedWithin(t: Table, hash: int -> nat, chains: seq<seq<int>>, linked: set<int>, i: int)
    requires Linked(t, hash, chains, linked) && i in linked
    ensures t.Sized() && 0 <= i < |t.roots|
  {
  }

  lemma EmptyIsLinked(t: Table, hash: int -> nat, chains: seq<seq<int>>)
    requires t.Sized() && |chains| == |t.buckets| && forall c :: 0 <= c < |chains| ==> chains[c] == [] && t.buckets[c] == -1
    ensures Linked(t, hash, chains, Below(0))
  {
  }

  /** An entry on no chain may be written freely. */
  lemma WriteUnlinked(t: Table, hash: int -> nat, chains: seq<seq<int>>, i: nat, root: int, owner: int)
    requires Linked(t, hash, chains, Below(i)) && i < |t.roots|
    ensures t.Sized() && Linked(t.(roots := t.roots[i := root], owners := t.owners[i := owner]), hash, chains, Below(i))
  {
    hide Bucket, Follows;
  }

  lemma NextOnChain(t: Table, hash: int -> nat, chains: seq<seq<int>>, linked: set<int>, root: int, j: nat)
    requires Linked(t, hash, chains, linked) && |chains| > 0
    requires j < |chains[Bucket(hash, |t.buckets|, root)]|
    ensures var chain := chains[Bucket(hash, |t.buckets|, root)];
            chain[j] in linked && 0 <= chain[j] < |t.roots| && t.next[chain[j]] == At(chain, j + 1)
  {
    hide Bucket;
    assert LinkAt(t.next, t.previous, chains[Bucket(hash, |t.buckets|, root)], j);
  }
}
