/** Among trees that repeat no key, being equal is being the same up to the order of members. */
module Reorderings {
  import opened Bytes
  import opened Json
  import opened Lookup
  import opened Compare

  // ---- Equal trees are reorderings of each other ----

  /** The members of `x` with the values that `y` has under their keys. */
  function Matched(x: Members, y: Members): (m: Members)
    requires Covers(x, y, true)
  {
    if x.MNil? then MNil
    else assert CoversKey(x.key, x.value, y, true); MCons(x.key, Find(y, x.key, true).value, Matched(x.rest, y))
  }

  lemma {:induction false} MatchedFind(x: Members, y: Members, key: Text)
    requires Covers(x, y, true)
    ensures Find(Matched(x, y), key, true) == if Find(x, key, true).Some? then Find(y, key, true) else None
  {
    if x.MCons? {
      MatchedFind(x.rest, y, key);
    }
  }

  lemma {:induction false} MatchedDistinct(x: Members, y: Members)
    requires Covers(x, y, true) && KeysDistinct(x, true)
    ensures KeysDistinct(Matched(x, y), true)
  {
    if x.MCons? {
      MatchedDistinct(x.rest, y);
      MatchedFind(x.rest, y, x.key);
    }
  }

  /** With distinct keys, a pair is listed once if a lookup finds it, and otherwise not at all. */
  lemma {:induction false} PairCount(members: Members, p: (Text, Json))
    requires KeysDistinct(members, true)
    ensures Pairs(members)[p] == if Find(members, p.0, true) == Some(p.1) then 1 else 0
  {
    if members.MCons? {
      PairCount(members.rest, p);
    }
  }

  lemma FoundInBoth(x: Members, y: Members, key: Text)
    requires Covers(x, y, true) && Covers(y, x, true)
    ensures Find(x, key, true).Some? <==> Find(y, key, true).Some?
  {
    if Find(x, key, true).Some? {
      CoversFound(x, y, key, true);
    }
    if Find(y, key, true).Some? {
      CoversFound(y, x, key, true);
    }
  }

  lemma MatchedPairs(x: Members, y: Members)
    requires Covers(x, y, true) && Covers(y, x, true) && KeysDistinct(x, true) && KeysDistinct(y, true)
    ensures Pairs(Matched(x, y)) == Pairs(y)
  {
    var m := Matched(x, y);
    MatchedDistinct(x, y);
    forall p: (Text, Json) ensures Pairs(m)[p] == Pairs(y)[p] {
      PairCount(m, p);
      PairCount(y, p);
      MatchedFind(x, y, p.0);
      FoundInBoth(x, y, p.0);
    }
  }

  lemma {:induction false} EqualReordered(a: Json, b: Json)
    requires Distinct(a, true) && Distinct(b, true) && Equal(a, b, true)
    ensures Reordered(a, b)
    decreases Height(a), 1
  {
    if a.Arr? {
      EqualItemsReordered(a.items, b.items);
    } else if a.Obj? {
      var m := Matched(a.members, b.members);
      MatchedPairs(a.members, b.members);
      MatchedReordered(a.members, b.members);
      assert ReorderedValues(a.members, m) && Pairs(m) == Pairs(b.members);
    }
  }

  lemma {:induction false} EqualItemsReordered(x: Items, y: Items)
    requires DistinctItems(x, true) && DistinctItems(y, true) && EqualItems(x, y, true)
    ensures ReorderedItems(x, y)
    decreases ItemsHeight(x), 2, x
  {
    if x.ICons? {
      EqualReordered(x.head, y.head);
      EqualItemsReordered(x.tail, y.tail);
    }
  }

  lemma {:induction false} FoundDistinct(members: Members, key: Text)
    requires DistinctMembers(members, true) && Find(members, key, true).Some?
    ensures Distinct(Find(members, key, true).value, true)
  {
    if !SameKey(key, members.key, true) {
      FoundDistinct(members.rest, key);
    }
  }

  lemma {:induction false} MatchedReordered(x: Members, y: Members)
    requires DistinctMembers(x, true) && DistinctMembers(y, true) && Covers(x, y, true)
    ensures ReorderedValues(x, Matched(x, y))
    decreases MembersHeight(x), 2, x
  {
    if x.MCons? {
      FoundDistinct(y, x.key);
      EqualReordered(x.value, Find(y, x.key, true).value);
      MatchedReordered(x.rest, y);
    }
  }

  // ---- Without regard to case, up to the case of the keys ----

  function FoldKeys(j: Json): Json {
    match j
    case Arr(items) => Arr(FoldItems(items))
    case Obj(members) => Obj(FoldMembers(members))
    case _ => j
  }

  function FoldItems(items: Items): Items {
    if items.INil? then INil else ICons(FoldKeys(items.head), FoldItems(items.tail))
  }

  function FoldMembers(members: Members): Members {
    if members.MNil? then MNil
    else MCons(Folded(members.key), FoldKeys(members.value), FoldMembers(members.rest))
  }

  lemma {:induction false} FoldFind(members: Members, name: Text)
    ensures Find(FoldMembers(members), Folded(name), true)
         == var found := Find(members, name, false); if found.None? then None else Some(FoldKeys(found.value))
  {
    if members.MCons? {
      FoldFind(members.rest, name);
    }
  }

  lemma {:induction false} FoldEqual(a: Json, b: Json)
    ensures Equal(a, b, false) <==> Equal(FoldKeys(a), FoldKeys(b), true)
    decreases Height(a) + Height(b), 0
  {
    if a.Arr? && b.Arr? {
      FoldEqualItems(a.items, b.items);
    } else if a.Obj? && b.Obj? {
      FoldCovers(a.members, b.members);
      FoldCovers(b.members, a.members);
    }
  }

  lemma {:induction false} FoldEqualItems(x: Items, y: Items)
    ensures EqualItems(x, y, false) <==> EqualItems(FoldItems(x), FoldItems(y), true)
    decreases ItemsHeight(x) + ItemsHeight(y), 1, x
  {
    if x.ICons? && y.ICons? {
      FoldEqual(x.head, y.head);
      FoldEqualItems(x.tail, y.tail);
    }
  }

  lemma {:induction false} FoldCovers(x: Members, y: Members)
    ensures Covers(x, y, false) <==> Covers(FoldMembers(x), FoldMembers(y), true)
    decreases MembersHeight(x) + MembersHeight(y), 1, x
  {
    if x.MCons? {
      FoldFind(y, x.key);
      if Find(y, x.key, false).Some? {
        FoldEqual(x.value, Find(y, x.key, false).value);
      }
      FoldCovers(x.rest, y);
    }
  }

  lemma {:induction false} FoldDistinct(j: Json)
    requires Distinct(j, false)
    ensures Distinct(FoldKeys(j), true)
    decreases j, 1
  {
    match j
    case Arr(items) => FoldDistinctItems(items);
    case Obj(members) => FoldDistinctMembers(members);
    case _ =>
  }

  lemma {:induction false} FoldDistinctItems(items: Items)
    requires DistinctItems(items, false)
    ensures DistinctItems(FoldItems(items), true)
    decreases items, 0
  {
    if items.ICons? {
      FoldDistinct(items.head);
      FoldDistinctItems(items.tail);
    }
  }

  lemma {:induction false} FoldDistinctMembers(members: Members)
    requires KeysDistinct(members, false) && DistinctMembers(members, false)
    ensures KeysDistinct(FoldMembers(members), true) && DistinctMembers(FoldMembers(members), true)
    decreases members, 0
  {
    if members.MCons? {
      FoldDistinct(members.value);
      FoldDistinctMembers(members.rest);
      FoldFind(members.rest, members.key);
    }
  }

  /** Trees that repeat no key are equal exactly when one is the other with members in another order. */
  lemma EqualIsReordering(a: Json, b: Json)
    ensures Distinct(a, true) && Distinct(b, true) ==> (Equal(a, b, true) <==> Reordered(a, b))
    ensures Distinct(a, false) && Distinct(b, false) ==>
              (Equal(a, b, false) <==> Reordered(FoldKeys(a), FoldKeys(b)))
  {
    hide Distinct, Equal, Reordered;
    if Distinct(a, true) && Distinct(b, true) {
      SensitiveReordering(a, b);
    }
    if Distinct(a, false) && Distinct(b, false) {
      FoldEqual(a, b);
      FoldDistinct(a);
      FoldDistinct(b);
      SensitiveReordering(FoldKeys(a), FoldKeys(b));
    }
  }

  lemma SensitiveReordering(a: Json, b: Json)
    requires Distinct(a, true) && Distinct(b, true)
    ensures Equal(a, b, true) <==> Reordered(a, b)
  {
    if Equal(a, b, true) {
      EqualReordered(a, b);
    }
    if Reordered(a, b) {
      ReorderedEqual(a, b, true);
    }
  }
}
