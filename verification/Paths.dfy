/** When two trees are equal, told by what is found in them: the same at the end of every path, with no ambiguity. */
module Paths {
  import opened Bytes
  import opened Json
  import opened Lookup
  import opened Compare

  /** To an element, or to the first member of a name. */
  datatype Step = At(index: nat) | Under(name: Text)

  /** What stands at the end of a path: a scalar with its value, a container of some kind, or nothing. */
  datatype Place = Nothing | Scalar(j: Json) | Array | Object

  function ElementAt(items: Items, i: nat): (r: Option<Json>)
    ensures r.Some? ==> Height(r.value) <= ItemsHeight(items)
  {
    if items.INil? then None else if i == 0 then Some(items.head) else ElementAt(items.tail, i - 1)
  }

  function Child(j: Json, step: Step, cs: bool): (r: Option<Json>)
    ensures r.Some? ==> Height(r.value) < Height(j)
  {
    match step
    case At(i) => if j.Arr? then ElementAt(j.items, i) else None
    case Under(name) => if j.Obj? then Find(j.members, name, cs) else None
  }

  function Follow(j: Json, path: seq<Step>, cs: bool): Option<Json>
    decreases |path|
  {
    if path == [] then Some(j)
    else
      var child := Child(j, path[0], cs);
      if child.None? then None else Follow(child.value, path[1..], cs)
  }

  function PlaceOf(found: Option<Json>): Place {
    if found.None? then Nothing
    else if found.value.Arr? then Array
    else if found.value.Obj? then Object
    else Scalar(found.value)
  }

  /** Whatever path is followed from both roots, it ends at the same. */
  ghost predicate Alike(a: Json, b: Json, cs: bool) {
    forall path :: PlaceOf(Follow(a, path, cs)) == PlaceOf(Follow(b, path, cs))
  }

  /** Members of the same name are alike, in every object. */
  ghost predicate Consistent(j: Json, cs: bool) {
    match j
    case Arr(items) => ConsistentItems(items, cs)
    case Obj(members) => ConsistentMembers(members, cs)
    case _ => true
  }

  ghost predicate ConsistentItems(items: Items, cs: bool) {
    items.ICons? ==> Consistent(items.head, cs) && ConsistentItems(items.tail, cs)
  }

  ghost predicate ConsistentMembers(members: Members, cs: bool) {
    members.MCons? ==>
      Consistent(members.value, cs) && AlikeUnder(members.key, members.value, members.rest, cs)
      && ConsistentMembers(members.rest, cs)
  }

  ghost predicate AlikeUnder(key: Text, value: Json, members: Members, cs: bool) {
    members.MCons? ==>
      (SameKey(key, members.key, cs) ==> Alike(value, members.value, cs)) && AlikeUnder(key, value, members.rest, cs)
  }

  // ---- Equal trees are alike ----

  lemma {:induction false} EqualElements(x: Items, y: Items, i: nat, cs: bool)
    requires EqualItems(x, y, cs)
    ensures var a, b := ElementAt(x, i), ElementAt(y, i);
            if a.None? then b.None? else b.Some? && Equal(a.value, b.value, cs)
  {
    if x.ICons? && i > 0 {
      EqualElements(x.tail, y.tail, i - 1, cs);
    }
  }

  lemma EqualChild(a: Json, b: Json, step: Step, cs: bool)
    requires Equal(a, b, cs)
    ensures var c, d := Child(a, step, cs), Child(b, step, cs);
            if c.None? then d.None? else d.Some? && Equal(c.value, d.value, cs)
  {
    match step
    case At(i) =>
      if a.Arr? {
        EqualElements(a.items, b.items, i, cs);
      }
    case Under(name) =>
      if a.Obj? {
        if Find(a.members, name, cs).Some? {
          CoversFound(a.members, b.members, name, cs);
        } else if Find(b.members, name, cs).Some? {
          CoversFound(b.members, a.members, name, cs);
        }
      }
  }

  lemma {:induction false} EqualFollows(a: Json, b: Json, path: seq<Step>, cs: bool)
    requires Equal(a, b, cs)
    ensures PlaceOf(Follow(a, path, cs)) == PlaceOf(Follow(b, path, cs))
    decreases |path|
  {
    if path != [] {
      EqualChild(a, b, path[0], cs);
      if Child(a, path[0], cs).Some? {
        EqualFollows(Child(a, path[0], cs).value, Child(b, path[0], cs).value, path[1..], cs);
      }
    }
  }

  lemma EqualAlike(a: Json, b: Json, cs: bool)
    requires Equal(a, b, cs)
    ensures Alike(a, b, cs)
  {
    forall path ensures PlaceOf(Follow(a, path, cs)) == PlaceOf(Follow(b, path, cs)) {
      EqualFollows(a, b, path, cs);
    }
  }

  lemma {:induction false} AgreeingConsistent(j: Json, cs: bool)
    requires Agreeing(j, cs)
    ensures Consistent(j, cs)
    decreases j, 1
  {
    match j
    case Arr(items) => AgreeingConsistentItems(items, cs);
    case Obj(members) => AgreeingConsistentMembers(members, cs);
    case _ =>
  }

  lemma {:induction false} AgreeingConsistentItems(items: Items, cs: bool)
    requires AgreeingItems(items, cs)
    ensures ConsistentItems(items, cs)
    decreases items, 0
  {
    if items.ICons? {
      AgreeingConsistent(items.head, cs);
      AgreeingConsistentItems(items.tail, cs);
    }
  }

  lemma {:induction false} AgreeingConsistentMembers(members: Members, cs: bool)
    requires AgreeingMembers(members, cs)
    ensures ConsistentMembers(members, cs)
    decreases members, 0
  {
    if members.MCons? {
      AgreeingConsistent(members.value, cs);
      AgreesAlike(members.key, members.value, members.rest, cs);
      AgreeingConsistentMembers(members.rest, cs);
    }
  }

  lemma {:induction false} AgreesAlike(key: Text, value: Json, members: Members, cs: bool)
    requires AgreesWith(key, value, members, cs)
    ensures AlikeUnder(key, value, members, cs)
  {
    if members.MCons? {
      AgreesAlike(key, value, members.rest, cs);
      if SameKey(key, members.key, cs) {
        EqualAlike(value, members.value, cs);
      }
    }
  }

  // ---- Consistent trees that are alike are equal ----

  lemma AlikeRoot(a: Json, b: Json, cs: bool)
    requires Alike(a, b, cs)
    ensures PlaceOf(Some(a)) == PlaceOf(Some(b))
  {
    assert Follow(a, [], cs) == Some(a) && Follow(b, [], cs) == Some(b);
    assert PlaceOf(Follow(a, [], cs)) == PlaceOf(Follow(b, [], cs));
  }

  lemma AlikeChild(a: Json, b: Json, step: Step, cs: bool)
    requires Alike(a, b, cs)
    ensures var c, d := Child(a, step, cs), Child(b, step, cs);
            if c.None? then d.None? else d.Some? && Alike(c.value, d.value, cs)
  {
    var c, d := Child(a, step, cs), Child(b, step, cs);
    OneStep(a, step, cs);
    OneStep(b, step, cs);
    assert PlaceOf(Follow(a, [step], cs)) == PlaceOf(Follow(b, [step], cs));
    if c.Some? {
      forall path ensures PlaceOf(Follow(c.value, path, cs)) == PlaceOf(Follow(d.value, path, cs)) {
        var longer := [step] + path;
        assert longer[1..] == path;
        assert PlaceOf(Follow(a, longer, cs)) == PlaceOf(Follow(b, longer, cs));
      }
    }
  }

  lemma OneStep(j: Json, step: Step, cs: bool)
    ensures Follow(j, [step], cs) == Child(j, step, cs)
  {
    assert [step][1..] == [];
  }

  lemma {:induction false} AlikeEqual(a: Json, b: Json, cs: bool)
    requires Consistent(a, cs) && Consistent(b, cs) && Alike(a, b, cs)
    ensures Equal(a, b, cs)
    decreases Max(Height(a), Height(b)), 2
  {
    hide Alike;
    AlikeRoot(a, b, cs);
    if a.Arr? {
      forall i: nat ensures AlikeAt(a.items, b.items, i, cs) {
        AlikeChild(a, b, At(i), cs);
      }
      AlikeEqualItems(a.items, b.items, cs);
    } else if a.Obj? {
      ConsistentEqual(a, cs);
      ConsistentEqual(b, cs);
      AlikeCovers(a.members, a, b, cs);
      AlikeSymmetric(a, b, cs);
      AlikeCovers(b.members, b, a, cs);
    }
  }

  lemma AlikeSymmetric(a: Json, b: Json, cs: bool)
    requires Alike(a, b, cs)
    ensures Alike(b, a, cs)
  {
  }

  ghost predicate AlikeAt(x: Items, y: Items, i: nat, cs: bool) {
    var a, b := ElementAt(x, i), ElementAt(y, i);
    if a.None? then b.None? else b.Some? && Alike(a.value, b.value, cs)
  }

  lemma {:induction false} AlikeEqualItems(x: Items, y: Items, cs: bool)
    requires ConsistentItems(x, cs) && ConsistentItems(y, cs) && forall i: nat :: AlikeAt(x, y, i, cs)
    ensures EqualItems(x, y, cs)
    decreases Max(ItemsHeight(x), ItemsHeight(y)), 3, x
  {
    hide Alike;
    assert AlikeAt(x, y, 0, cs);
    if x.ICons? {
      AlikeEqual(x.head, y.head, cs);
      forall i: nat ensures AlikeAt(x.tail, y.tail, i, cs) {
        assert AlikeAt(x, y, i + 1, cs);
      }
      AlikeEqualItems(x.tail, y.tail, cs);
    }
  }

  lemma {:induction false} FoundConsistent(members: Members, name: Text, cs: bool)
    requires ConsistentMembers(members, cs) && Find(members, name, cs).Some?
    ensures Consistent(Find(members, name, cs).value, cs)
  {
    if !SameKey(name, members.key, cs) {
      FoundConsistent(members.rest, name, cs);
    }
  }

  /** Each member of `x`, from an object that equals itself, has its counterpart in an object like that one. */
  lemma {:induction false} AlikeCovers(x: Members, a: Json, b: Json, cs: bool)
    requires a.Obj? && b.Obj? && Consistent(a, cs) && Consistent(b, cs) && Alike(a, b, cs)
    requires Covers(x, a.members, cs)
    ensures Covers(x, b.members, cs)
    decreases Max(Height(a), Height(b)), 1, x
  {
    hide Alike;
    if x.MCons? {
      var found := Find(a.members, x.key, cs);
      AlikeChild(a, b, Under(x.key), cs);
      var other := Find(b.members, x.key, cs);
      FoundConsistent(a.members, x.key, cs);
      FoundConsistent(b.members, x.key, cs);
      AlikeEqual(found.value, other.value, cs);
      Transitive(x.value, found.value, other.value, cs);
      AlikeCovers(x.rest, a, b, cs);
    }
  }

  lemma {:induction false} ConsistentEqual(j: Json, cs: bool)
    requires Consistent(j, cs)
    ensures Equal(j, j, cs)
    decreases Height(j), 1
  {
    ConsistentAgreeing(j, cs);
    ReflexiveIff(j, cs);
  }

  lemma {:induction false} ConsistentAgreeing(j: Json, cs: bool)
    requires Consistent(j, cs)
    ensures Agreeing(j, cs)
    decreases Height(j), 0, j
  {
    match j
    case Arr(items) => ConsistentAgreeingItems(items, cs);
    case Obj(members) => ConsistentAgreeingMembers(members, cs);
    case _ =>
  }

  lemma {:induction false} ConsistentAgreeingItems(items: Items, cs: bool)
    requires ConsistentItems(items, cs)
    ensures AgreeingItems(items, cs)
    decreases ItemsHeight(items), 3, items
  {
    if items.ICons? {
      ConsistentAgreeing(items.head, cs);
      ConsistentAgreeingItems(items.tail, cs);
    }
  }

  lemma {:induction false} ConsistentAgreeingMembers(members: Members, cs: bool)
    requires ConsistentMembers(members, cs)
    ensures AgreeingMembers(members, cs)
    decreases MembersHeight(members), 3, members
  {
    if members.MCons? {
      ConsistentAgreeing(members.value, cs);
      AlikeAgrees(members.key, members.value, members.rest, cs);
      ConsistentAgreeingMembers(members.rest, cs);
    }
  }

  lemma {:induction false} AlikeAgrees(key: Text, value: Json, members: Members, cs: bool)
    requires Consistent(value, cs) && ConsistentMembers(members, cs) && AlikeUnder(key, value, members, cs)
    ensures AgreesWith(key, value, members, cs)
    decreases Max(Height(value), MembersHeight(members)), 3, members
  {
    if members.MCons? {
      AlikeAgrees(key, value, members.rest, cs);
      if SameKey(key, members.key, cs) {
        AlikeEqual(value, members.value, cs);
      }
    }
  }

  /**
    Two trees are equal exactly when every path from their roots ends at the same scalar, the same kind of container or
    nothing in both, and neither of them gives one name to members that are not alike.
   */
  lemma EqualIff(a: Json, b: Json, cs: bool)
    ensures Equal(a, b, cs) <==> Alike(a, b, cs) && Consistent(a, cs) && Consistent(b, cs)
  {
    hide Equal, Alike;
    if Equal(a, b, cs) {
      EqualAlike(a, b, cs);
      Congruence(a, b, a, cs);
      Symmetric(a, b, cs);
      Congruence(b, a, b, cs);
      ReflexiveIff(a, cs);
      ReflexiveIff(b, cs);
      AgreeingConsistent(a, cs);
      AgreeingConsistent(b, cs);
    }
    if Alike(a, b, cs) && Consistent(a, cs) && Consistent(b, cs) {
      AlikeEqual(a, b, cs);
    }
  }
}
