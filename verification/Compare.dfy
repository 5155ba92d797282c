/** `cJSON_Compare` on trees that share no nodes: a partial equivalence, reflexive on trees with distinct keys. */
module Compare {
  import opened Bytes
  import opened Json
  import opened Lookup

  predicate Equal(a: Json, b: Json, cs: bool)
    decreases Height(a) + Height(b), 0
  {
    if a.Arr? && b.Arr? then EqualItems(a.items, b.items, cs)
    else if a.Obj? && b.Obj? then Covers(a.members, b.members, cs) && Covers(b.members, a.members, cs)
    else a == b
  }

  predicate EqualItems(x: Items, y: Items, cs: bool)
    decreases ItemsHeight(x) + ItemsHeight(y), 1, x
  {
    if x.ICons? && y.ICons? then Equal(x.head, y.head, cs) && EqualItems(x.tail, y.tail, cs)
    else x.INil? && y.INil?
  }

  /** Every member of `x` has an equal counterpart among the first matches in `y`. */
  predicate Covers(x: Members, y: Members, cs: bool)
    decreases MembersHeight(x) + MembersHeight(y), 2, x
  {
    x.MCons? ==> CoversKey(x.key, x.value, y, cs) && Covers(x.rest, y, cs)
  }

  predicate CoversKey(key: Text, value: Json, y: Members, cs: bool)
    decreases Height(value) + MembersHeight(y), 1
  {
    var counterpart := Find(y, key, cs);
    counterpart.Some? && Equal(value, counterpart.value, cs)
  }

  // ---- Symmetry ----

  lemma {:induction false} Symmetric(a: Json, b: Json, cs: bool)
    ensures Equal(a, b, cs) == Equal(b, a, cs)
    decreases a, 1
  {
    if a.Arr? && b.Arr? {
      SymmetricItems(a.items, b.items, cs);
    }
  }

  lemma {:induction false} SymmetricItems(x: Items, y: Items, cs: bool)
    ensures EqualItems(x, y, cs) == EqualItems(y, x, cs)
    decreases x, 0
  {
    if x.ICons? && y.ICons? {
      Symmetric(x.head, y.head, cs);
      SymmetricItems(x.tail, y.tail, cs);
    }
  }

  // ---- Transitivity, duplicate keys or not ----

  lemma {:induction false} CoversFound(y: Members, z: Members, key: Text, cs: bool)
    requires Covers(y, z, cs) && Find(y, key, cs).Some?
    ensures CoversKey(key, Find(y, key, cs).value, z, cs)
  {
    if SameKey(key, y.key, cs) {
      FindSame(z, key, y.key, cs);
    } else {
      CoversFound(y.rest, z, key, cs);
    }
  }

  lemma {:induction false} Transitive(a: Json, b: Json, c: Json, cs: bool)
    requires Equal(a, b, cs) && Equal(b, c, cs)
    ensures Equal(a, c, cs)
    decreases Height(a) + Height(b) + Height(c), 0
  {
    if a.Arr? {
      TransitiveItems(a.items, b.items, c.items, cs);
    } else if a.Obj? {
      TransitiveCovers(a.members, b.members, c.members, cs);
      TransitiveCovers(c.members, b.members, a.members, cs);
    }
  }

  lemma {:induction false} TransitiveItems(x: Items, y: Items, z: Items, cs: bool)
    requires EqualItems(x, y, cs) && EqualItems(y, z, cs)
    ensures EqualItems(x, z, cs)
    decreases ItemsHeight(x) + ItemsHeight(y) + ItemsHeight(z), 1, x
  {
    if x.ICons? {
      Transitive(x.head, y.head, z.head, cs);
      TransitiveItems(x.tail, y.tail, z.tail, cs);
    }
  }

  lemma {:induction false} TransitiveCovers(x: Members, y: Members, z: Members, cs: bool)
    requires Covers(x, y, cs) && Covers(y, z, cs)
    ensures Covers(x, z, cs)
    decreases MembersHeight(x) + MembersHeight(y) + MembersHeight(z), 1, x
  {
    if x.MCons? {
      CoversFound(y, z, x.key, cs);
      Transitive(x.value, Find(y, x.key, cs).value, Find(z, x.key, cs).value, cs);
      TransitiveCovers(x.rest, y, z, cs);
    }
  }

  /** Whatever equals something equals itself, and equal trees compare alike with every third one. */
  lemma Congruence(a: Json, b: Json, c: Json, cs: bool)
    requires Equal(a, b, cs)
    ensures Equal(a, a, cs) && Equal(a, c, cs) == Equal(b, c, cs)
  {
    hide Equal;
    Symmetric(a, b, cs);
    Transitive(a, b, a, cs);
    if Equal(a, c, cs) {
      Transitive(b, a, c, cs);
    }
    if Equal(b, c, cs) {
      Transitive(a, b, c, cs);
    }
  }

  // ---- Reflexivity ----

  predicate KeysDistinct(members: Members, cs: bool) {
    members.MCons? ==> Find(members.rest, members.key, cs).None? && KeysDistinct(members.rest, cs)
  }

  /** No object anywhere in the tree repeats a key. */
  predicate Distinct(j: Json, cs: bool) {
    match j
    case Arr(items) => DistinctItems(items, cs)
    case Obj(members) => KeysDistinct(members, cs) && DistinctMembers(members, cs)
    case _ => true
  }

  predicate DistinctItems(items: Items, cs: bool) {
    items.ICons? ==> Distinct(items.head, cs) && DistinctItems(items.tail, cs)
  }

  predicate DistinctMembers(members: Members, cs: bool) {
    members.MCons? ==> Distinct(members.value, cs) && DistinctMembers(members.rest, cs)
  }

  /** Looking up each key of `x` in `whole` gives the member's own value. */
  predicate AllFound(x: Members, whole: Members, cs: bool) {
    x.MCons? ==> Find(whole, x.key, cs) == Some(x.value) && AllFound(x.rest, whole, cs)
  }

  lemma {:induction false} FoundBehind(x: Members, key: Text, value: Json, rest: Members, cs: bool)
    requires AllFound(x, rest, cs) && Find(rest, key, cs).None?
    ensures AllFound(x, MCons(key, value, rest), cs)
  {
    if x.MCons? {
      FoundBehind(x.rest, key, value, rest, cs);
      if SameKey(x.key, key, cs) {
        FindSame(rest, x.key, key, cs);
      }
    }
  }

  lemma {:induction false} DistinctFound(x: Members, cs: bool)
    requires KeysDistinct(x, cs)
    ensures AllFound(x, x, cs)
  {
    if x.MCons? {
      DistinctFound(x.rest, cs);
      FoundBehind(x.rest, x.key, x.value, x.rest, cs);
    }
  }

  /** A tree whose objects repeat no key equals its recursive duplicate. */
  lemma {:induction false} Reflexive(j: Json, cs: bool)
    requires Distinct(j, cs)
    ensures Equal(j, j, cs)
    decreases j, 1
  {
    match j
    case Arr(items) => ReflexiveItems(items, cs);
    case Obj(members) =>
      DistinctFound(members, cs);
      ReflexiveMembers(members, members, cs);
    case _ =>
  }

  lemma {:induction false} ReflexiveItems(items: Items, cs: bool)
    requires DistinctItems(items, cs)
    ensures EqualItems(items, items, cs)
    decreases items, 0
  {
    if items.ICons? {
      Reflexive(items.head, cs);
      ReflexiveItems(items.tail, cs);
    }
  }

  lemma {:induction false} ReflexiveMembers(x: Members, whole: Members, cs: bool)
    requires DistinctMembers(x, cs) && AllFound(x, whole, cs)
    ensures Covers(x, whole, cs)
    decreases x, 0
  {
    if x.MCons? {
      Reflexive(x.value, cs);
      ReflexiveMembers(x.rest, whole, cs);
    }
  }

  // ---- When a tree equals itself ----

  /** In every object at every depth, members with the same key have values that compare equal. */
  predicate Agreeing(j: Json, cs: bool) {
    match j
    case Arr(items) => AgreeingItems(items, cs)
    case Obj(members) => AgreeingMembers(members, cs)
    case _ => true
  }

  predicate AgreeingItems(items: Items, cs: bool) {
    items.ICons? ==> Agreeing(items.head, cs) && AgreeingItems(items.tail, cs)
  }

  predicate AgreeingMembers(members: Members, cs: bool) {
    members.MCons? ==>
      Agreeing(members.value, cs) && AgreesWith(members.key, members.value, members.rest, cs)
      && AgreeingMembers(members.rest, cs)
  }

  predicate AgreesWith(key: Text, value: Json, members: Members, cs: bool) {
    members.MCons? ==>
      (SameKey(key, members.key, cs) ==> Equal(value, members.value, cs)) && AgreesWith(key, value, members.rest, cs)
  }

  /** A tree equals itself, and so its duplicate, exactly when members with the same key agree. */
  lemma {:induction false} ReflexiveIff(j: Json, cs: bool)
    ensures Equal(j, j, cs) <==> Agreeing(j, cs)
    decreases j, 2
  {
    match j
    case Arr(items) => ReflexiveItemsIff(items, cs);
    case Obj(members) =>
      if Covers(members, members, cs) {
        CoveredAgree(members, members, cs);
      }
      if AgreeingMembers(members, cs) {
        AgreeingCovered(members, cs);
      }
    case _ =>
  }

  lemma {:induction false} ReflexiveItemsIff(items: Items, cs: bool)
    ensures EqualItems(items, items, cs) <==> AgreeingItems(items, cs)
    decreases items, 0
  {
    if items.ICons? {
      ReflexiveIff(items.head, cs);
      ReflexiveItemsIff(items.tail, cs);
    }
  }

  /** Members with the same key find the same counterpart. */
  lemma {:induction false} CoveredAgreesWith(key: Text, value: Json, x: Members, whole: Members, cs: bool)
    requires CoversKey(key, value, whole, cs) && Covers(x, whole, cs)
    ensures AgreesWith(key, value, x, cs)
  {
    if x.MCons? {
      CoveredAgreesWith(key, value, x.rest, whole, cs);
      if SameKey(key, x.key, cs) {
        FindSame(whole, key, x.key, cs);
        var found := Find(whole, key, cs).value;
        Symmetric(x.value, found, cs);
        Transitive(value, found, x.value, cs);
      }
    }
  }

  lemma {:induction false} CoveredAgree(x: Members, whole: Members, cs: bool)
    requires Covers(x, whole, cs)
    ensures AgreeingMembers(x, cs)
    decreases x, 1
  {
    if x.MCons? {
      CoveredAgreesWith(x.key, x.value, x.rest, whole, cs);
      CoveredAgree(x.rest, whole, cs);
      Congruence(x.value, Find(whole, x.key, cs).value, x.value, cs);
      ReflexiveIff(x.value, cs);
    }
  }

  lemma {:induction false} CoversBehind(y: Members, key: Text, value: Json, rest: Members, cs: bool)
    requires Covers(y, rest, cs) && AgreesWith(key, value, y, cs)
    ensures Covers(y, MCons(key, value, rest), cs)
  {
    if y.MCons? {
      CoversBehind(y.rest, key, value, rest, cs);
      if SameKey(key, y.key, cs) {
        Symmetric(value, y.value, cs);
      }
    }
  }

  lemma {:induction false} AgreeingCovered(x: Members, cs: bool)
    requires AgreeingMembers(x, cs)
    ensures Covers(x, x, cs)
    decreases x, 1
  {
    if x.MCons? {
      AgreeingCovered(x.rest, cs);
      CoversBehind(x.rest, x.key, x.value, x.rest, cs);
      ReflexiveIff(x.value, cs);
    }
  }

  /** The smallest tree that does not even equal its own duplicate: a key comes again with a different value. */
  lemma RepeatedKeyNotReflexive(key: Text, other: Text, v: Json, w: Json, cs: bool)
    requires SameKey(key, other, cs) && !Equal(w, v, cs)
    ensures var j := Obj(MCons(key, v, MCons(other, w, MNil))); !Equal(j, j, cs)
  {
    var m := MCons(key, v, MCons(other, w, MNil));
    assert Find(m, other, cs) == Some(v);
    assert !CoversKey(other, w, m, cs);
    assert !Covers(m.rest, m, cs);
  }

  // ---- Member order ----

  function Pairs(members: Members): multiset<(Text, Json)> {
    if members.MNil? then multiset{} else multiset{(members.key, members.value)} + Pairs(members.rest)
  }

  lemma {:induction false} FoundPair(members: Members, p: (Text, Json), whole: Members, cs: bool)
    requires p in Pairs(members) && AllFound(members, whole, cs)
    ensures Find(whole, p.0, cs) == Some(p.1)
  {
    if p != (members.key, members.value) {
      FoundPair(members.rest, p, whole, cs);
    }
  }

  lemma {:induction false} PairOfKey(members: Members, key: Text, cs: bool) returns (p: (Text, Json))
    requires Find(members, key, cs).Some?
    ensures p in Pairs(members) && SameKey(key, p.0, cs) && Find(members, key, cs) == Some(p.1)
  {
    if SameKey(key, members.key, cs) {
      p := (members.key, members.value);
    } else {
      p := PairOfKey(members.rest, key, cs);
    }
  }

  lemma {:induction false} KeyOfPair(members: Members, p: (Text, Json), cs: bool)
    requires p in Pairs(members)
    ensures Find(members, p.0, cs).Some?
  {
    if p != (members.key, members.value) {
      KeyOfPair(members.rest, p, cs);
    }
  }

  /** Among distinct keys, order does not matter to a lookup. */
  lemma FindPermuted(x: Members, y: Members, key: Text, cs: bool)
    requires KeysDistinct(x, cs) && Pairs(x) == Pairs(y)
    ensures Find(x, key, cs) == Find(y, key, cs)
  {
    DistinctFound(x, cs);
    if Find(x, key, cs).Some? {
      var p := PairOfKey(x, key, cs);
      KeyOfPair(y, p, cs);
      FindSame(y, key, p.0, cs);
    }
    if Find(y, key, cs).Some? {
      var p := PairOfKey(y, key, cs);
      FoundPair(x, p, x, cs);
      FindSame(x, key, p.0, cs);
    }
  }

  lemma {:induction false} CoversPermuted(z: Members, x: Members, y: Members, cs: bool)
    requires KeysDistinct(x, cs) && Pairs(x) == Pairs(y)
    ensures Covers(z, x, cs) == Covers(z, y, cs)
    decreases z
  {
    if z.MCons? {
      FindPermuted(x, y, z.key, cs);
      CoversPermuted(z.rest, x, y, cs);
    }
  }

  lemma {:induction false} CoveredPairs(x: Members, z: Members, p: (Text, Json), cs: bool)
    requires Covers(x, z, cs) && p in Pairs(x)
    ensures CoversKey(p.0, p.1, z, cs)
  {
    if p != (x.key, x.value) {
      CoveredPairs(x.rest, z, p, cs);
    }
  }

  lemma {:induction false} CoversByPairs(x: Members, z: Members, cs: bool)
    requires forall p :: p in Pairs(x) ==> CoversKey(p.0, p.1, z, cs)
    ensures Covers(x, z, cs)
  {
    if x.MCons? {
      assert (x.key, x.value) in Pairs(x);
      assert forall p :: p in Pairs(x.rest) ==> p in Pairs(x);
      CoversByPairs(x.rest, z, cs);
    }
  }

  lemma CoveringPermuted(x: Members, y: Members, z: Members, cs: bool)
    requires Pairs(x) == Pairs(y) && Covers(x, z, cs)
    ensures Covers(y, z, cs)
  {
    forall p | p in Pairs(y) ensures CoversKey(p.0, p.1, z, cs) {
      CoveredPairs(x, z, p, cs);
    }
    CoversByPairs(y, z, cs);
  }

  /** Permuting the members of an object with distinct keys changes no comparison with it. */
  lemma MemberOrder(x: Members, y: Members, c: Json, cs: bool)
    requires KeysDistinct(x, cs) && Pairs(x) == Pairs(y)
    ensures Equal(Obj(x), c, cs) == Equal(Obj(y), c, cs)
    ensures Equal(c, Obj(x), cs) == Equal(c, Obj(y), cs)
  {
    hide Covers;
    if c.Obj? {
      var z := c.members;
      CoversPermuted(z, x, y, cs);
      if Covers(x, z, cs) {
        CoveringPermuted(x, y, z, cs);
      }
      if Covers(y, z, cs) {
        CoveringPermuted(y, x, z, cs);
      }
    }
  }

  /** `b` is `a` with the members of any of its objects, at any depth, in another order. */
  ghost predicate Reordered(a: Json, b: Json)
    decreases a, 1
  {
    if a.Arr? && b.Arr? then ReorderedItems(a.items, b.items)
    else if a.Obj? && b.Obj? then exists m :: ReorderedValues(a.members, m) && Pairs(m) == Pairs(b.members)
    else a == b
  }

  ghost predicate ReorderedItems(x: Items, y: Items)
    decreases x, 0
  {
    if x.ICons? && y.ICons? then Reordered(x.head, y.head) && ReorderedItems(x.tail, y.tail)
    else x.INil? && y.INil?
  }

  /** The same keys in the same order, with reordered values. */
  ghost predicate ReorderedValues(x: Members, y: Members)
    decreases x, 0
  {
    if x.MCons? && y.MCons? then x.key == y.key && Reordered(x.value, y.value) && ReorderedValues(x.rest, y.rest)
    else x.MNil? && y.MNil?
  }

  /** Reordering a tree with distinct keys leaves it equal to itself, and equal to whatever it was equal to. */
  lemma ReorderingUnseen(a: Json, b: Json, c: Json, cs: bool)
    requires Distinct(a, cs) && Reordered(a, b)
    ensures Equal(a, b, cs) && Equal(a, c, cs) == Equal(b, c, cs)
  {
    ReorderedEqual(a, b, cs);
    Congruence(a, b, c, cs);
  }

  lemma {:induction false} ReorderedEqual(a: Json, b: Json, cs: bool)
    requires Distinct(a, cs) && Reordered(a, b)
    ensures Equal(a, b, cs)
    decreases a, 1
  {
    hide Covers;
    if a.Arr? {
      ReorderedItemsEqual(a.items, b.items, cs);
    } else if a.Obj? {
      var m :| ReorderedValues(a.members, m) && Pairs(m) == Pairs(b.members);
      DistinctFound(a.members, cs);
      ReorderedFind(a.members, m, cs);
      ReorderedCovers(a.members, m, a.members, m, cs);
      assert Equal(a, Obj(m), cs);
      MemberOrder(m, b.members, a, cs);
    }
  }

  lemma {:induction false} ReorderedItemsEqual(x: Items, y: Items, cs: bool)
    requires DistinctItems(x, cs) && ReorderedItems(x, y)
    ensures EqualItems(x, y, cs)
    decreases x, 0
  {
    if x.ICons? {
      ReorderedEqual(x.head, y.head, cs);
      ReorderedItemsEqual(x.tail, y.tail, cs);
    }
  }

  lemma {:induction false} ReorderedLookup(x: Members, m: Members, key: Text, cs: bool)
    requires ReorderedValues(x, m)
    ensures Find(x, key, cs).None? <==> Find(m, key, cs).None?
  {
    if x.MCons? {
      ReorderedLookup(x.rest, m.rest, key, cs);
    }
  }

  lemma {:induction false} ReorderedFind(x: Members, m: Members, cs: bool)
    requires ReorderedValues(x, m) && KeysDistinct(x, cs)
    ensures KeysDistinct(m, cs) && AllFound(m, m, cs)
  {
    if x.MCons? {
      ReorderedLookup(x.rest, m.rest, x.key, cs);
      ReorderedFind(x.rest, m.rest, cs);
      FoundBehind(m.rest, m.key, m.value, m.rest, cs);
    }
  }

  lemma {:induction false} ReorderedCovers(x: Members, m: Members, wholeX: Members, wholeM: Members, cs: bool)
    requires DistinctMembers(x, cs) && ReorderedValues(x, m)
    requires AllFound(x, wholeX, cs) && AllFound(m, wholeM, cs)
    ensures Covers(x, wholeM, cs) && Covers(m, wholeX, cs)
    decreases x, 0
  {
    if x.MCons? {
      ReorderedEqual(x.value, m.value, cs);
      Symmetric(x.value, m.value, cs);
      ReorderedCovers(x.rest, m.rest, wholeX, wholeM, cs);
    }
  }

  // ---- The comparison as it runs ----

  method CompareTrees(a: Json, b: Json, cs: bool) returns (equal: bool)
    requires CStrings(a) && CStrings(b)
    ensures equal == Equal(a, b, cs)
    decreases Height(a) + Height(b), 1
  {
    match a
    case Null =>
      equal := b.Null?;
    case Bool(x) =>
      equal := b.Bool? && x == b.b;
    case Num(x) =>
      equal := b.Num? && x == b.v;
    case Str(x) =>
      equal := b.Str? && x == b.s;
    case Arr(items) =>
      if !b.Arr? {
        return false;
      }
      equal := CompareElements(items, b.items, cs);
    case Obj(members) =>
      if !b.Obj? {
        return false;
      }
      equal := CompareMembers(members, b.members, cs);
      if equal {
        equal := CompareMembers(b.members, members, cs);
      }
  }

  /** The loop over two arrays. */
  method CompareElements(x: Items, y: Items, cs: bool) returns (equal: bool)
    requires CStringItems(x) && CStringItems(y)
    ensures equal == EqualItems(x, y, cs)
    decreases ItemsHeight(x) + ItemsHeight(y), 2
  {
    var a, b := x, y;
    while a.ICons? && b.ICons?
      invariant CStringItems(a) && CStringItems(b)
      invariant ItemsHeight(a) <= ItemsHeight(x) && ItemsHeight(b) <= ItemsHeight(y)
      invariant EqualItems(x, y, cs) == EqualItems(a, b, cs)
      decreases a
    {
      equal := CompareTrees(a.head, b.head, cs);
      if !equal {
        return;
      }
      a, b := a.tail, b.tail;
    }
    equal := a.INil? && b.INil?;
  }

  /** One of the two passes over objects: each member of `x` against its first match in `y`. */
  method CompareMembers(x: Members, y: Members, cs: bool) returns (equal: bool)
    requires CStringMembers(x) && CStringMembers(y)
    ensures equal == Covers(x, y, cs)
    decreases MembersHeight(x) + MembersHeight(y), 2
  {
    var current := x;
    while current.MCons?
      invariant CStringMembers(current) && MembersHeight(current) <= MembersHeight(x)
      invariant Covers(x, y, cs) == Covers(current, y, cs)
      decreases current
    {
      var counterpart := GetObjectItem(Obj(y), current.key, cs);
      if counterpart.None? {
        return false;
      }
      equal := CompareTrees(current.value, counterpart.value, cs);
      if !equal {
        return;
      }
      current := current.rest;
    }
    equal := true;
  }
}
