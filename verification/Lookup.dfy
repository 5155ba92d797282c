/** `get_object_item`: the first member whose key matches, exactly or up to ASCII letter case. */
module Lookup {
  import opened Bytes
  import opened Json

  /** `tolower` in the C locale. */
  function ToLower(c: byte): byte {
    if 65 <= c <= 90 then c as int + 32 else c
  }

  function Folded(t: Text): (r: Text)
    ensures |r| == |t| && forall k :: 0 <= k < |t| ==> r[k] == ToLower(t[k])
  {
    seq(|t|, i requires 0 <= i < |t| => ToLower(t[i]))
  }

  /** Keys are the same when their normal forms are. */
  function Normal(key: Text, caseSensitive: bool): Text {
    if caseSensitive then key else Folded(key)
  }

  /** Letters differ in case by 32, and nothing else is folded. */
  predicate SameLetter(a: byte, b: byte) {
    a == b
    || ('A' as int <= a <= 'Z' as int && b == a as int + 32)
    || ('A' as int <= b <= 'Z' as int && a == b as int + 32)
  }

  /** Keys are the same when case does not matter exactly if they match letter by letter. */
  lemma SameKeyIff(a: Text, b: Text)
    ensures SameKey(a, b, true) <==> a == b
    ensures SameKey(a, b, false) <==> |a| == |b| && forall k :: 0 <= k < |a| ==> SameLetter(a[k], b[k])
  {
    if SameKey(a, b, false) {
      forall k | 0 <= k < |a| ensures SameLetter(a[k], b[k]) {
        assert Folded(a)[k] == Folded(b)[k];
      }
    }
    if |a| == |b| && forall k :: 0 <= k < |a| ==> SameLetter(a[k], b[k]) {
      assert Folded(a) == Folded(b);
    }
  }

  predicate SameKey(a: Text, b: Text, caseSensitive: bool) {
    Normal(a, caseSensitive) == Normal(b, caseSensitive)
  }

  function Find(members: Members, name: Text, caseSensitive: bool): (r: Option<Json>)
    ensures r.Some? ==> Height(r.value) <= MembersHeight(members)
  {
    if members.MNil? then None
    else if SameKey(name, members.key, caseSensitive) then Some(members.value)
    else Find(members.rest, name, caseSensitive)
  }

  function Listing(members: Members): seq<(Text, Json)> {
    if members.MNil? then [] else [(members.key, members.value)] + Listing(members.rest)
  }

  /** What is found is the first member of the list whose key is the same. */
  lemma {:induction false} FirstFound(members: Members, name: Text, caseSensitive: bool) returns (i: nat)
    ensures var fields, found := Listing(members), Find(members, name, caseSensitive);
            if found.Some? then
              i < |fields| && found.value == fields[i].1 && SameKey(name, fields[i].0, caseSensitive)
              && forall k :: 0 <= k < i ==> !SameKey(name, fields[k].0, caseSensitive)
            else forall k :: 0 <= k < |fields| ==> !SameKey(name, fields[k].0, caseSensitive)
  {
    i := 0;
    if members.MCons? {
      var fields, rest := Listing(members), Listing(members.rest);
      assert forall k :: 1 <= k < |fields| ==> fields[k] == rest[k - 1];
      i := FirstFound(members.rest, name, caseSensitive);
      i := if SameKey(name, members.key, caseSensitive) then 0 else i + 1;
    }
  }

  /** On anything but an object no child has a key, so nothing is found. */
  function Item(j: Json, name: Text, caseSensitive: bool): Option<Json> {
    if j.Obj? then Find(j.members, name, caseSensitive) else None
  }

  /** Only a key's normal form matters. */
  lemma {:induction false} FindSame(members: Members, a: Text, b: Text, caseSensitive: bool)
    requires SameKey(a, b, caseSensitive)
    ensures Find(members, a, caseSensitive) == Find(members, b, caseSensitive)
  {
    if members.MCons? {
      FindSame(members.rest, a, b, caseSensitive);
    }
  }

  /** `case_insensitive_strcmp` on C strings: 0 exactly for keys that fold alike, otherwise the first difference. */
  method CaseInsensitiveStrcmp(string1: Text, string2: Text) returns (difference: int)
    requires NulFree(string1) && NulFree(string2)
    ensures difference == 0 <==> SameKey(string1, string2, false)
  {
    var a, b := string1 + [NUL], string2 + [NUL];
    var i := 0;
    while ToLower(a[i]) == ToLower(b[i])
      invariant i < |a| && i < |b|
      invariant Folded(string1[..i]) == Folded(string2[..i])
      decreases |a| - i
    {
      if a[i] == NUL {
        assert string1[..i] == string1 && string2[..i] == string2;
        return 0;
      }
      i := i + 1;
    }
    difference := ToLower(a[i]) as int - ToLower(b[i]) as int;
    if i < |string1| && i < |string2| {
      assert Folded(string1)[i] != Folded(string2)[i];
    }
  }

  method GetObjectItem(tree: Json, name: Text, caseSensitive: bool) returns (item: Option<Json>)
    requires NulFree(name) && CStrings(tree)
    requires caseSensitive && tree.Arr? ==> tree.items.INil?  // an element's key is NULL, which `strcmp` may not see
    ensures item == Item(tree, name, caseSensitive)
    ensures item.Some? ==> CStrings(item.value)
  {
    if !tree.Obj? {
      return None;
    }
    var current := tree.members;
    while current.MCons?
      invariant CStringMembers(current)
      invariant Find(current, name, caseSensitive) == Find(tree.members, name, caseSensitive)
      decreases current
    {
      var difference: int;
      if caseSensitive {
        difference := if name == current.key then 0 else 1;
      } else {
        difference := CaseInsensitiveStrcmp(name, current.key);
      }
      if difference == 0 {
        return Some(current.value);
      }
      current := current.rest;
    }
    item := None;
  }
}
