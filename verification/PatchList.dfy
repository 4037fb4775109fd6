/**
 The published list of patch code: built from the slots' owners with a mark on each owner, sorted by code address, and
 searched by bisection.
 */
module PatchList {
  /** A piece of machine code. */
  datatype Code = Code(start: nat, size: nat)
  {
    predicate Contains(address: nat) {
      start <= address < start + size
    }
  }

  /** Pieces of code that are in memory together do not overlap, and are not empty. Others may have been freed. */
  ghost predicate Laid(code: seq<Code>, ids: set<int>) {
    && (forall i <- ids :: 0 <= i < |code| && code[i].size > 0)
    && (forall i, j :: i in ids && j in ids && i != j ==>
          code[i].start + code[i].size <= code[j].start || code[j].start + code[j].size <= code[i].start)
  }

  ghost function Members(s: seq<int>): set<int> {
    set i | i in s && i >= 0
  }

  ghost predicate Sorted(code: seq<Code>, list: seq<nat>) {
    && (forall i :: 0 <= i < |list| ==> list[i] < |code|)
    && (forall i, j :: 0 <= i < j < |list| ==> code[list[i]].start < code[list[j]].start)
  }

  /** Every slot's owner is a piece of code, or none. */
  predicate Owners(code: seq<Code>, owners: seq<int>) {
    forall k :: 0 <= k < |owners| ==> -1 <= owners[k] < |code|
  }

  // ---------------------------------------------------------------- building the list

  /** A list sorted but for a new entry. */
  method Insert(code: seq<Code>, list: seq<nat>, id: nat) returns (r: seq<nat>)
    requires Laid(code, Members(list) + {id}) && Sorted(code, list) && id < |code| && id !in list
    ensures Sorted(code, r) && forall x :: x in r <==> x in list || x == id
  {
    var k := |list|;
    while k > 0 && code[list[k - 1]].start > code[id].start
      invariant 0 <= k <= |list|
      invariant forall i :: k <= i < |list| ==> code[list[i]].start > code[id].start
    {
      k := k - 1;
    }
    r := list[..k] + [id] + list[k..];
    StartsDiffer(code, list, id, k);
    InsertMembers(list, id, k);
  }

  lemma StartsDiffer(code: seq<Code>, list: seq<nat>, id: nat, k: nat)
    requires Laid(code, Members(list) + {id}) && Sorted(code, list) && id < |code| && id !in list && k <= |list|
    requires k > 0 ==> code[list[k - 1]].start <= code[id].start
    requires forall i :: k <= i < |list| ==> code[list[i]].start > code[id].start
    ensures Sorted(code, list[..k] + [id] + list[k..])
  {
    hide Laid;
    var r := list[..k] + [id] + list[k..];
    forall i | 0 <= i < |r| ensures r[i] == if i < k then list[i] else if i == k then id else list[i - 1] {
    }
    forall i, j | 0 <= i < j < |r| ensures r[i] < |code| && r[j] < |code| && code[r[i]].start < code[r[j]].start {
      if j == k {
        BelowNew(code, list, id, k, i);
      }
    }
  }

  lemma BelowNew(code: seq<Code>, list: seq<nat>, id: nat, k: nat, i: nat)
    requires Laid(code, Members(list) + {id}) && Sorted(code, list) && id < |code| && id !in list && i < k <= |list|
    requires code[list[k - 1]].start <= code[id].start
    ensures code[list[i]].start < code[id].start
  {
    assert list[k - 1] in list;
    DifferentStarts(code, Members(list) + {id}, list[k - 1], id);
  }

  lemma DifferentStarts(code: seq<Code>, ids: set<int>, a: nat, b: nat)
    requires Laid(code, ids) && a in ids && b in ids && a != b
    ensures code[a].start != code[b].start
  {
  }

  lemma FewerLaid(code: seq<Code>, ids: set<int>, fewer: set<int>)
    requires Laid(code, ids) && fewer <= ids
    ensures Laid(code, fewer)
  {
  }

  lemma InsertMembers(list: seq<nat>, id: nat, k: nat)
    requires k <= |list|
    ensures forall x :: x in list[..k] + [id] + list[k..] <==> x in list || x == id
  {
    assert list == list[..k] + list[k..];
  }

  /** patch_live_publish: marks every owner, then collects each marked owner once, unmarking it, and sorts them. */
  method Publish(code: seq<Code>, owners: seq<int>) returns (list: seq<nat>)
    requires Laid(code, Members(owners)) && Owners(code, owners)
    ensures Sorted(code, list) && forall x: nat :: x in list <==> x in owners
  {
    var listed: set<int> := {};
    for i := 0 to |owners|
      invariant forall x :: x in listed <==> x >= 0 && x in owners[..i]
    {
      assert owners[..i + 1] == owners[..i] + [owners[i]];
      if owners[i] >= 0 {
        listed := listed + {owners[i]};
      }
    }
    assert owners[..|owners|] == owners;
    list := [];
    ghost var all := listed;
    for i := 0 to |owners|
      invariant Sorted(code, list)
      invariant forall x: nat :: x in list <==> x in owners[..i]
      invariant forall x :: x in listed <==> x in all && x !in owners[..i]
    {
      assert owners[..i + 1] == owners[..i] + [owners[i]];
      if owners[i] >= 0 && owners[i] in listed {
        listed := listed - {owners[i]};
        assert Members(list) + {owners[i]} <= Members(owners);
        FewerLaid(code, Members(owners), Members(list) + {owners[i]});
        list := Insert(code, list, owners[i]);
      }
    }
  }

  // ---------------------------------------------------------------- searching it

  /** patch_live_find: bisection finds what a scan of the list would. */
  method Find(code: seq<Code>, list: seq<nat>, address: nat) returns (found: int)
    requires Laid(code, Members(list)) && Sorted(code, list)
    ensures found >= 0 ==> found in list && code[found].Contains(address)
    ensures found >= 0 ==> forall x <- list :: code[x].Contains(address) ==> x == found
    ensures found < 0 ==> forall x <- list :: !code[x].Contains(address)
  {
    hide Laid;
    var lo, hi := 0, |list|;
    while lo < hi
      invariant 0 <= lo <= hi <= |list|
      invariant forall i :: 0 <= i < lo ==> code[list[i]].start <= address
      invariant forall i :: hi <= i < |list| ==> code[list[i]].start > address
    {
      var mid := (lo + hi) / 2;
      if code[list[mid]].start <= address {
        lo := mid + 1;
      } else {
        hi := mid;
      }
    }
    if lo > 0 && code[list[lo - 1]].Contains(address) {
      forall x | x in list && code[x].Contains(address) ensures x == list[lo - 1] {
        OneContains(code, Members(list), x, list[lo - 1], address);
      }
      return list[lo - 1];
    }
    OnlyTheLast(code, list, address, lo);
    return -1;
  }

  lemma OnlyTheLast(code: seq<Code>, list: seq<nat>, address: nat, lo: nat)
    requires Laid(code, Members(list)) && Sorted(code, list) && lo <= |list|
    requires forall i :: lo <= i < |list| ==> code[list[i]].start > address
    requires forall i :: 0 <= i < lo ==> code[list[i]].start <= address
    requires lo > 0 ==> !code[list[lo - 1]].Contains(address)
    ensures forall x <- list :: !code[x].Contains(address)
  {
    forall x | x in list ensures !code[x].Contains(address) {
      var i :| 0 <= i < |list| && list[i] == x;
      if i < lo - 1 {
        var a, b := code[list[i]], code[list[lo - 1]];
        assert a.start < b.start;
        assert a.start + a.size <= b.start;
      }
    }
  }

  /** At most one piece of code contains an address, so it does not matter how the list is searched. */
  lemma OneContains(code: seq<Code>, ids: set<int>, i: nat, j: nat, address: nat)
    requires Laid(code, ids) && i in ids && j in ids && code[i].Contains(address) && code[j].Contains(address)
    ensures i == j
  {
  }
}
