/** Which trees the decoder accepts, and as what: told by names and numbers, without the decoder's own lookups. */
module Decoding {
  import opened Bytes
  import Numbers
  import opened Json
  import opened Lookup
  import opened Messages
  import Parser
  import opened Grammar

  /** The same name but for the case of letters. */
  predicate Named(key: Text, name: Text) {
    |key| == |name| && forall k :: 0 <= k < |key| ==> SameLetter(key[k], name[k])
  }

  /** The member at `i` is the first one of that name. */
  predicate FirstAt(fields: seq<(Text, Json)>, name: Text, i: int) {
    0 <= i < |fields| && Named(fields[i].0, name) && forall k :: 0 <= k < i ==> !Named(fields[k].0, name)
  }

  /** `j` is an object whose first member of that name is `v`. */
  ghost predicate Has(j: Json, name: Text, v: Json) {
    j.Obj? && exists i :: FirstAt(Listing(j.members), name, i) && Listing(j.members)[i].1 == v
  }

  lemma FindAt(members: Members, name: Text) returns (i: nat)
    ensures var found := Find(members, name, false);
            if found.Some? then FirstAt(Listing(members), name, i) && Listing(members)[i].1 == found.value
            else forall k :: 0 <= k < |Listing(members)| ==> !Named(Listing(members)[k].0, name)
  {
    i := FirstFound(members, name, false);
    var fields := Listing(members);
    forall k | 0 <= k < |fields| ensures SameKey(name, fields[k].0, false) <==> Named(fields[k].0, name) {
      SameKeyIff(name, fields[k].0);
    }
  }

  /** The lookup finds what a reader of the list would. */
  lemma ItemIff(j: Json, name: Text, v: Json)
    ensures Item(j, name, false) == Some(v) <==> Has(j, name, v)
  {
    if j.Obj? {
      var i := FindAt(j.members, name);
      var fields := Listing(j.members);
      if k :| FirstAt(fields, name, k) && fields[k].1 == v {
        assert Find(j.members, name, false).Some?;
        assert FirstAt(fields, name, i);
        assert i == k;
      }
    }
  }

  predicate Starts(t: Text, prefix: Text) {
    |prefix| <= |t| && forall k :: 0 <= k < |prefix| ==> t[k] == prefix[k]
  }

  /** `n` is `v` without its fraction, kept within 32 bits. */
  predicate Truncates(v: real, n: int) {
    if v >= 2147483647.0 then n == 2147483647
    else if v <= -2147483648.0 then n == -2147483648
    else if v >= 0.0 then n as real <= v < n as real + 1.0
    else n as real - 1.0 < v <= n as real
  }

  lemma ValueIntIff(v: real, n: int)
    ensures Numbers.ValueInt(v) == n <==> Truncates(v, n)
  {
  }

  /** What a type and a data object mean; the last type must be matched to its end. */
  ghost predicate Means(kind: Text, data: Json, m: Message) {
    if Starts(kind, Lit("SOFT_ERR")) then m.SoftError? && Has(data, Lit("message"), Str(m.text))
    else if Starts(kind, Lit("HARD_ERROR_OTHER")) then m.HardErrorOther? && Has(data, Lit("message"), Str(m.text))
    else if Starts(kind, Lit("HARD_ERROR_VALVE")) then
      m.HardErrorValve? && Has(data, Lit("message"), Str(m.text))
      && exists v :: Has(data, Lit("valve_no"), Num(v)) && Truncates(v, m.valveNo)
    else kind == Lit("KEEP_ALIVE") && m.KeepAlive?
  }

  lemma StartsIff(t: Text, prefix: Text)
    ensures HasPrefix(t, prefix) <==> Starts(t, prefix)
  {
  }

  lemma StringItemIff(j: Json, name: Text, t: Text)
    ensures StringItem(j, name) == Some(t) <==> Has(j, name, Str(t))
  {
    ItemIff(j, name, Str(t));
  }

  lemma ValveIff(data: Json, n: int)
    ensures (exists v :: Has(data, Lit("valve_no"), Num(v)) && Truncates(v, n))
       <==> var valve := Item(data, VALVE_NO, false);
            valve.Some? && valve.value.Num? && Numbers.ValueInt(valve.value.v) == n
  {
    var valve := Item(data, VALVE_NO, false);
    if v :| Has(data, Lit("valve_no"), Num(v)) && Truncates(v, n) {
      ItemIff(data, VALVE_NO, Num(v));
      ValueIntIff(v, n);
    }
    if valve.Some? && valve.value.Num? && Numbers.ValueInt(valve.value.v) == n {
      ItemIff(data, VALVE_NO, valve.value);
      ValueIntIff(valve.value.v, n);
      assert Has(data, Lit("valve_no"), Num(valve.value.v));
    }
  }

  lemma DataIff(kind: Text, data: Json, m: Message)
    ensures DecodeData(kind, data) == Some(m) <==> Means(kind, data, m)
  {
    StartsIff(kind, SOFT_ERR);
    StartsIff(kind, HARD_ERROR_OTHER);
    StartsIff(kind, HARD_ERROR_VALVE);
    hide Starts, HasPrefix, Has, Item, StringItem, Truncates;
    if m.SoftError? || m.HardErrorOther? || m.HardErrorValve? {
      StringItemIff(data, MESSAGE, m.text);
    }
    if m.HardErrorValve? {
      ValveIff(data, m.valveNo);
    }
  }

  /**
    A tree decodes to a message exactly when it is an object whose first members named "version", "data" and "type", up
    to case, are the number 2, anything, and a string that together with the data means that message.
   */
  lemma DecodeIff(root: Json, m: Message)
    ensures DecodeTree(root) == Some(m)
       <==> Has(root, Lit("version"), Num(2.0))
            && exists data, kind :: Has(root, Lit("data"), data) && Has(root, Lit("type"), Str(kind))
                                    && Means(kind, data, m)
  {
    hide Has, Item, Means, DecodeData;
    ItemIff(root, VERSION, Num(2.0));
    var data, kind := Item(root, DATA, false), Item(root, TYPE, false);
    if data.Some? && kind.Some? && kind.value.Str? {
      ItemIff(root, DATA, data.value);
      ItemIff(root, TYPE, kind.value);
      DataIff(kind.value.s, data.value, m);
    }
    if d, k :| Has(root, Lit("data"), d) && Has(root, Lit("type"), Str(k)) && Means(k, d, m) {
      ItemIff(root, DATA, d);
      ItemIff(root, TYPE, Str(k));
    }
  }

  /** The bytes `frame` up to a NUL start with a text of `root`, and blanks before it at most. */
  ghost predicate Holds(frame: Text, root: Json) {
    exists b: nat, v: nat, e: nat :: Leads(CString(frame), root, b, v, e)
  }

  /** Bytes decode exactly if they start with the text of a tree that does; whatever follows it does not matter. */
  lemma DecodeTextIff(frame: Text, m: Message)
    ensures Decode(frame) == Some(m) <==> exists root :: Holds(frame, root) && DecodeTree(root) == Some(m)
  {
    hide Leads, DecodeTree, Parser.Parse;
    var text := CString(frame);
    if Decode(frame) == Some(m) {
      var b, v := ParsedLeads(text);
      assert Holds(frame, Parser.Parse(text, false).value);
    }
    if root :| Holds(frame, root) && DecodeTree(root) == Some(m) {
      var b: nat, v: nat, e: nat :| Leads(text, root, b, v, e);
      DecodedIsObject(root);
      LeadsParsed(text, root, b, v, e);
    }
  }

  lemma DecodedIsObject(root: Json)
    requires DecodeTree(root).Some?
    ensures root.Obj?
  {
  }
}
