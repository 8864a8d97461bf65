/**
 The cached parent lookup of include/element_hierarchy.hpp: building the map from the pool, and the
 bounded walk over it.
 */
module ElementHierarchy {
  import opened DeviceDescriptor

  type ParentMap = map<nat, nat>

  // ---------------------------------------------------------------------------------------------
  // The walk
  // ---------------------------------------------------------------------------------------------

  /** The element reached from `e` after following `k` parents, if there are that many. */
  function Ancestor(parents: ParentMap, e: nat, k: nat): Option<nat> {
    if k == 0 then Some(e)
    else
      var below := Ancestor(parents, e, k - 1);
      if below.Some? && below.value in parents then Some(parents[below.value]) else None
  }

  /** Some element reachable by following parents zero or more times satisfies `p`. */
  ghost predicate AnyAncestor(parents: ParentMap, e: nat, p: nat -> bool) {
    exists k: nat :: var a := Ancestor(parents, e, k); a.Some? && p(a.value)
  }

  method AnyInChain(parents: ParentMap, elementNumber: nat, p: nat -> bool) returns (found: bool)
    ensures found <==> AnyAncestor(parents, elementNumber, p)
  {
    var current := elementNumber;
    for visited := 0 to |parents| + 1
      invariant Ancestor(parents, elementNumber, visited) == Some(current)
      invariant ClimbsAtLeast(parents, elementNumber, visited)
      invariant forall j: nat :: j < visited ==> !p(Ancestor(parents, elementNumber, j).value)
    {
      if p(current) {
        return true;
      }
      if current !in parents {
        NothingAboveTheTop(parents, elementNumber, visited);
        return false;
      }
      current := parents[current];
    }
    CycleCoversEverything(parents, elementNumber);
    forall k: nat | Ancestor(parents, elementNumber, k).Some?
      ensures !p(Ancestor(parents, elementNumber, k).value)
    {
      var j := AncestorWithin(parents, elementNumber, k);
    }
    return false;
  }

  lemma {:induction false} NothingAboveTheTop(parents: ParentMap, e: nat, top: nat)
    requires Ancestor(parents, e, top).Some? && Ancestor(parents, e, top).value !in parents
    ensures forall k: nat :: k > top ==> Ancestor(parents, e, k).None?
  {
    forall k: nat | k > top ensures Ancestor(parents, e, k).None? {
      var i := top + 1;
      while i < k
        invariant top < i <= k && Ancestor(parents, e, i).None?
      {
        i := i + 1;
      }
    }
  }

  /** The first `n` elements of the chain all have a parent. */
  ghost predicate ClimbsAtLeast(parents: ParentMap, e: nat, n: nat) {
    forall j: nat :: j < n ==> Ancestor(parents, e, j).Some? && Ancestor(parents, e, j).value in parents
  }

  lemma CycleCoversEverything(parents: ParentMap, e: nat)
    requires ClimbsAtLeast(parents, e, |parents| + 1)
    ensures exists i: nat, j: nat :: i < j <= |parents| && Ancestor(parents, e, i) == Ancestor(parents, e, j)
  {
    assert |parents.Keys| == |parents|;
    if forall i: nat, j: nat :: i < j <= |parents| ==> Ancestor(parents, e, i) != Ancestor(parents, e, j) {
      var visited := DistinctAncestors(parents, e, |parents| + 1);
      SubsetSize(visited, parents.Keys);
    }
  }

  ghost predicate ReachedAt(parents: ParentMap, e: nat, j: nat, x: nat) {
    Ancestor(parents, e, j) == Some(x)
  }

  lemma {:induction false} DistinctAncestors(parents: ParentMap, e: nat, n: nat) returns (visited: set<nat>)
    requires ClimbsAtLeast(parents, e, n)
    requires forall i: nat, j: nat :: i < j < n ==> Ancestor(parents, e, i) != Ancestor(parents, e, j)
    ensures visited <= parents.Keys && |visited| == n
    ensures forall x :: x in visited ==> exists j: nat :: j < n && ReachedAt(parents, e, j, x)
  {
    if n == 0 {
      visited := {};
    } else {
      var before := DistinctAncestors(parents, e, n - 1);
      var last := Ancestor(parents, e, n - 1);
      assert last.value !in before;
      visited := before + {last.value};
      assert ReachedAt(parents, e, n - 1, last.value);
    }
  }

  lemma {:induction false} SubsetSize(a: set<nat>, b: set<nat>)
    requires a <= b
    ensures |a| <= |b|
  {
    if a != {} {
      var x :| x in a;
      SubsetSize(a - {x}, b - {x});
    }
  }

  lemma {:induction false} AncestorsCompose(parents: ParentMap, e: nat, j: nat, k: nat)
    requires Ancestor(parents, e, j).Some?
    ensures Ancestor(parents, e, j + k) == Ancestor(parents, Ancestor(parents, e, j).value, k)
  {
    if k != 0 {
      AncestorsCompose(parents, e, j, k - 1);
      assert j + k - 1 == j + (k - 1);
    }
  }

  /** Past a repeated element the chain only revisits elements already seen. */
  lemma {:induction false} AncestorWithin(parents: ParentMap, e: nat, k: nat) returns (j: nat)
    requires Ancestor(parents, e, k).Some?
    requires exists i: nat, j: nat :: i < j <= |parents| && Ancestor(parents, e, i) == Ancestor(parents, e, j)
                                                         && Ancestor(parents, e, i).Some?
    ensures j <= |parents| && Ancestor(parents, e, j) == Ancestor(parents, e, k)
    decreases k
  {
    if k <= |parents| {
      j := k;
    } else {
      var first: nat, again: nat :| first < again <= |parents|
          && Ancestor(parents, e, first) == Ancestor(parents, e, again)
                                                              && Ancestor(parents, e, first).Some?;
      AncestorsCompose(parents, e, again, k - again);
      AncestorsCompose(parents, e, first, k - again);
      j := AncestorWithin(parents, e, first + (k - again));
    }
  }

  // ---------------------------------------------------------------------------------------------
  // The map
  // ---------------------------------------------------------------------------------------------

  /** The number of the device element that `o` names as its parent, if it names one. */
  function ParentNumber(pool: Pool, o: PoolObject): Option<nat>
    requires o.Element?
  {
    var parent := FindById(pool, o.parent);
    if parent.Some? && parent.value.Element? then Some(parent.value.number) else None
  }

  /** What the object at index `i` contributes to the map. */
  function Entry(pool: Pool, i: nat): Option<nat>
    requires i < |pool|
  {
    if !pool[i].Element? then None
    else
      var parent := ParentNumber(pool, pool[i]);
      if parent.Some? && parent.value != pool[i].number then parent else None
  }

  /** The map after the first `n` objects: a later object overwrites an earlier one. */
  function ParentMapOf(pool: Pool, n: nat): ParentMap
    requires n <= |pool|
  {
    if n == 0 then map[]
    else
      var before := ParentMapOf(pool, n - 1);
      var entry := Entry(pool, n - 1);
      if entry.Some? then before[pool[n - 1].number := entry.value] else before
  }

  // Object ids are 16 bits wide, so a pool holds at most 65535 objects; the loop counter is 16 bits
  // wide as well and would never reach a larger size.
  method BuildParentMap(pool: Pool) returns (parents: ParentMap)
    requires |pool| <= 0xFFFF
    ensures parents == ParentMapOf(pool, |pool|)
  {
    parents := map[];
    for i := 0 to |pool|
      invariant parents == ParentMapOf(pool, i)
    {
      var candidate := pool[i];
      if !candidate.Element? {
        continue;
      }
      var parentObject := FindById(pool, candidate.parent);
      if parentObject.None? || !parentObject.value.Element? {
        continue;
      }
      if parentObject.value.number != candidate.number {
        parents := parents[candidate.number := parentObject.value.number];
      }
    }
  }

  ghost predicate UniqueElementNumbers(pool: Pool) {
    forall i, j :: 0 <= i < j < |pool| && pool[i].Element? && pool[j].Element? ==> pool[i].number != pool[j].number
  }

  /** `number` is a device element of the pool whose parent object is the device element `parent`. */
  ghost predicate IsParent(pool: Pool, number: nat, parent: nat) {
    exists i :: 0 <= i < |pool| && pool[i].Element? && pool[i].number == number
        && ParentNumber(pool, pool[i]) == Some(parent)
  }

  /** Index `i` holds the last of the first `n` objects that contribute a parent for `number`. */
  ghost predicate LastEntry(pool: Pool, n: nat, i: int, number: nat)
    requires n <= |pool|
  {
    && 0 <= i < n
    && Entry(pool, i).Some? && pool[i].number == number
    && forall j :: i < j < n && Entry(pool, j).Some? ==> pool[j].number != number
  }

  lemma {:induction false} MapEntryIsLast(pool: Pool, n: nat, number: nat)
    requires n <= |pool|
    ensures number in ParentMapOf(pool, n) ==>
              exists i :: LastEntry(pool, n, i, number) && Entry(pool, i) == Some(ParentMapOf(pool, n)[number])
    ensures number !in ParentMapOf(pool, n) ==>
              forall i :: 0 <= i < n && Entry(pool, i).Some? ==> pool[i].number != number
  {
    if n != 0 {
      MapEntryIsLast(pool, n - 1, number);
      if Entry(pool, n - 1).Some? && pool[n - 1].number == number {
        assert LastEntry(pool, n, n - 1, number);
      } else if number in ParentMapOf(pool, n - 1) {
        var i :| LastEntry(pool, n - 1, i, number) && Entry(pool, i) == Some(ParentMapOf(pool, n - 1)[number]);
        assert LastEntry(pool, n, i, number);
      }
    }
  }

  /**
   The cached map holds the parent of the last device element with that number that has another device
   element as its parent. With distinct numbers that is the parent relation of the pool, self-references
   apart.
   */
  lemma CachedParents(pool: Pool, number: nat, parent: nat)
    ensures number in ParentMapOf(pool, |pool|) && ParentMapOf(pool, |pool|)[number] == parent
            <==> exists i :: LastEntry(pool, |pool|, i, number) && Entry(pool, i) == Some(parent)
    ensures UniqueElementNumbers(pool) ==>
              (number in ParentMapOf(pool, |pool|) && ParentMapOf(pool, |pool|)[number] == parent
               <==> IsParent(pool, number, parent) && parent != number)
  {
    MapEntryIsLast(pool, |pool|, number);
    forall i, j | LastEntry(pool, |pool|, i, number) && LastEntry(pool, |pool|, j, number) ensures i == j {
    }
  }

  /** `k` steps of the slow search: each step looks the element up in the pool and follows its parent object id. */
  ghost predicate PoolAncestor(pool: Pool, e: nat, k: nat, a: nat) {
    if k == 0 then a == e
    else exists below: nat :: PoolAncestor(pool, e, k - 1, below) && IsParent(pool, below, a)
  }

  /** The slow search: some element on the chain of parent object ids satisfies `p`. */
  ghost predicate AnyPoolAncestor(pool: Pool, e: nat, p: nat -> bool) {
    exists k: nat, a: nat :: PoolAncestor(pool, e, k, a) && p(a)
  }

  lemma {:induction false} CachedStepsArePoolSteps(pool: Pool, e: nat, k: nat)
    requires Ancestor(ParentMapOf(pool, |pool|), e, k).Some?
    ensures PoolAncestor(pool, e, k, Ancestor(ParentMapOf(pool, |pool|), e, k).value)
  {
    var parents := ParentMapOf(pool, |pool|);
    if k != 0 {
      CachedStepsArePoolSteps(pool, e, k - 1);
      var below := Ancestor(parents, e, k - 1).value;
      MapEntryIsLast(pool, |pool|, below);
      assert IsParent(pool, below, parents[below]);
    }
  }

  /**
   Each element's own parent is met on the cached walk that starts at the element's number. This can be
   looked up element by element, and the walk need not be longer than the map.
   */
  ghost predicate ParentsOnWalk(pool: Pool) {
    forall i :: 0 <= i < |pool| && Entry(pool, i).Some? ==> OnWalk(pool, pool[i].number, Entry(pool, i).value)
  }

  ghost predicate OnWalk(pool: Pool, e: nat, a: nat) {
    exists k: nat :: Ancestor(ParentMapOf(pool, |pool|), e, k) == Some(a)
  }

  /** An element that is its own parent costs the slow search a step and the cached walk none. */
  lemma {:induction false} PoolStepsAreCachedSteps(pool: Pool, e: nat, k: nat, a: nat)
    requires ParentsOnWalk(pool)
    requires PoolAncestor(pool, e, k, a)
    ensures OnWalk(pool, e, a)
  {
    var parents := ParentMapOf(pool, |pool|);
    if k == 0 {
      assert Ancestor(parents, e, 0) == Some(a);
    } else {
      var below: nat :| PoolAncestor(pool, e, k - 1, below) && IsParent(pool, below, a);
      PoolStepsAreCachedSteps(pool, e, k - 1, below);
      if a != below {
        var i :| 0 <= i < |pool| && pool[i].Element? && pool[i].number == below
            && ParentNumber(pool, pool[i]) == Some(a);
        assert Entry(pool, i) == Some(a);
        var first: nat :| Ancestor(parents, e, first) == Some(below);
        var further: nat :| Ancestor(parents, below, further) == Some(a);
        AncestorsCompose(parents, e, first, further);
      }
    }
  }

  /** Where each element's parent is on its walk, the cached walk answers what a search of the pool would. */
  lemma CachedWalkAgreesWithPool(pool: Pool, e: nat, p: nat -> bool)
    requires ParentsOnWalk(pool)
    ensures AnyAncestor(ParentMapOf(pool, |pool|), e, p) <==> AnyPoolAncestor(pool, e, p)
  {
    var parents := ParentMapOf(pool, |pool|);
    if AnyAncestor(parents, e, p) {
      var k: nat :| var a := Ancestor(parents, e, k); a.Some? && p(a.value);
      CachedStepsArePoolSteps(pool, e, k);
    }
    if AnyPoolAncestor(pool, e, p) {
      var k: nat, a: nat :| PoolAncestor(pool, e, k, a) && p(a);
      PoolStepsAreCachedSteps(pool, e, k, a);
    }
  }

  /** The cached walk and the search of the pool answer alike for this start and this question. */
  ghost predicate AnswersAlike(pool: Pool, e: nat, p: nat -> bool) {
    AnyAncestor(ParentMapOf(pool, |pool|), e, p) <==> AnyPoolAncestor(pool, e, p)
  }

  /**
   The exact condition: the cached walk answers every question about every element as a search of the
   pool itself would if and only if each element's parent is on the walk from its number.
   */
  lemma CachedWalkAgreesIff(pool: Pool)
    ensures (forall e: nat, p: nat -> bool :: AnswersAlike(pool, e, p)) <==> ParentsOnWalk(pool)
  {
    if ParentsOnWalk(pool) {
      forall e: nat, p: nat -> bool ensures AnswersAlike(pool, e, p) {
        CachedWalkAgreesWithPool(pool, e, p);
      }
    }
    if forall e: nat, p: nat -> bool :: AnswersAlike(pool, e, p) {
      forall i | 0 <= i < |pool| && Entry(pool, i).Some?
        ensures OnWalk(pool, pool[i].number, Entry(pool, i).value)
      {
        var e, a := pool[i].number, Entry(pool, i).value;
        var isParent := (x: nat) => x == a;
        assert AnswersAlike(pool, e, isParent);
        assert PoolAncestor(pool, e, 0, e) && IsParent(pool, e, a);
        assert PoolAncestor(pool, e, 1, a);
        var k: nat :| Ancestor(ParentMapOf(pool, |pool|), e, k).Some?
                      && isParent(Ancestor(ParentMapOf(pool, |pool|), e, k).value);
        assert Ancestor(ParentMapOf(pool, |pool|), e, k) == Some(a);
      }
    }
  }

  /** Distinct element numbers are enough: the parent is then the first step of the walk. */
  lemma DistinctNumbersAgree(pool: Pool)
    requires UniqueElementNumbers(pool)
    ensures ParentsOnWalk(pool)
  {
    var parents := ParentMapOf(pool, |pool|);
    forall i | 0 <= i < |pool| && Entry(pool, i).Some?
      ensures OnWalk(pool, pool[i].number, Entry(pool, i).value)
    {
      var e := pool[i].number;
      MapEntryIsLast(pool, |pool|, e);
      assert Ancestor(parents, e, 0) == Some(e);
      assert Ancestor(parents, e, 1) == Some(Entry(pool, i).value);
    }
  }

  /**
   A pool that fails the condition: of two elements numbered 5 the cached map keeps only the parent of
   the later one, while the pool has a path from 5 to both parents.
   */
  lemma DuplicateNumbersDisagree()
    ensures var pool := [Element(1, 6, 0, []), Element(2, 7, 0, []), Element(3, 5, 1, []), Element(4, 5, 2, [])];
            var isSix := (x: nat) => x == 6;
            && AnyPoolAncestor(pool, 5, isSix) && !AnyAncestor(ParentMapOf(pool, |pool|), 5, isSix)
            && !ParentsOnWalk(pool)
  {
    var pool := [Element(1, 6, 0, []), Element(2, 7, 0, []), Element(3, 5, 1, []), Element(4, 5, 2, [])];
    assert FindById(pool, 1) == Some(pool[0]);
    assert pool[1..][0] == pool[1];
    assert FindById(pool, 2) == FindById(pool[1..], 2) == Some(pool[1]);
    NoObjectZero(pool);
    assert ParentMapOf(pool, 1) == map[] && ParentMapOf(pool, 2) == map[];
    assert ParentMapOf(pool, 3) == map[5 := 6];
    var parents := ParentMapOf(pool, |pool|);
    assert parents == map[5 := 7];
    assert Ancestor(parents, 5, 1) == Some(7);
    NothingAboveTheTop(parents, 5, 1);
    assert ParentNumber(pool, pool[2]) == Some(6);
    assert PoolAncestor(pool, 5, 0, 5) && IsParent(pool, 5, 6);
    assert PoolAncestor(pool, 5, 1, 6);
    if ParentsOnWalk(pool) {
      CachedWalkAgreesWithPool(pool, 5, (x: nat) => x == 6);
    }
  }

  lemma {:induction false} NoObjectZero(pool: Pool)
    requires forall i :: 0 <= i < |pool| ==> pool[i].Element? && pool[i].id != 0
    ensures FindById(pool, 0).None?
  {
    if pool != [] {
      NoObjectZero(pool[1..]);
    }
  }

  /** The parent is the first object with the parent's id, if that is a device element. */
  lemma ParentIsFirstWithId(pool: Pool, o: PoolObject)
    requires o.Element?
    ensures match ParentNumber(pool, o)
            case Some(number) =>
              exists j :: IsFirstWithId(pool, j, o.parent) && pool[j].Element? && pool[j].number == number
            case None => forall j :: IsFirstWithId(pool, j, o.parent) ==> !pool[j].Element?
  {
    FindByIdIsFirst(pool, o.parent);
    if j :| IsFirstWithId(pool, j, o.parent) && pool[j].Element? {
      assert FindById(pool, o.parent).Some?;
      var k :| IsFirstWithId(pool, k, o.parent) && pool[k] == FindById(pool, o.parent).value;
      assert j == k;
    }
  }
}
