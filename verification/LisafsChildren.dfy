/** The child table of a lisafs node: up to five children in an array, and a map
    once there are more. Both forms stand for one map from names to nodes. */
module LisafsChildren {
  import opened Options
  import opened LisafsTree

  const NUM_STATIC_CHILDREN := 5

  datatype Slot = Slot(name: Name, node: Option<Id>)

  const EMPTY := Slot("", None)

  /** Free slots are empty, and no name is in use twice. */
  ghost predicate Tidy(s: seq<Slot>) {
    && (forall i | 0 <= i < |s| :: s[i].node.None? <==> s[i].name == "")
    && forall i, j | 0 <= i < j < |s| :: s[i].node.Some? && s[j].node.Some? ==> s[i].name != s[j].name
  }

  ghost function StaticMap(s: seq<Slot>): map<Name, Id>
    requires Tidy(s)
  {
    map i | 0 <= i < |s| && s[i].node.Some? :: s[i].name := s[i].node.value
  }

  lemma StaticMapAt(s: seq<Slot>, i: nat)
    requires Tidy(s) && i < |s| && s[i].node.Some?
    ensures s[i].name in StaticMap(s) && StaticMap(s)[s[i].name] == s[i].node.value
  {
  }

  lemma StaticMapFind(s: seq<Slot>, k: Name) returns (i: nat)
    requires Tidy(s) && k in StaticMap(s)
    ensures i < |s| && s[i] == Slot(k, Some(StaticMap(s)[k])) && k != ""
  {
    i :| 0 <= i < |s| && s[i].node.Some? && s[i].name == k;
    StaticMapAt(s, i);
  }

  /** A free slot is filled. */
  lemma StaticMapSet(s: seq<Slot>, i: nat, name: Name, node: Id)
    requires Tidy(s) && i < |s| && s[i].node.None? && name != "" && name !in StaticMap(s)
    ensures Tidy(s[i := Slot(name, Some(node))])
    ensures StaticMap(s[i := Slot(name, Some(node))]) == StaticMap(s)[name := node]
  {
    hide StaticMap;
    var s' := s[i := Slot(name, Some(node))];
    forall j | 0 <= j < |s| && s[j].node.Some?
      ensures s[j].name != name
    {
      StaticMapAt(s, j);
    }
    assert Tidy(s');
    StaticMapAt(s', i);
    forall k | k in StaticMap(s)
      ensures k in StaticMap(s') && StaticMap(s')[k] == StaticMap(s)[k]
    {
      var j := StaticMapFind(s, k);
      StaticMapAt(s', j);
    }
    forall k | k in StaticMap(s')
      ensures k == name || k in StaticMap(s)
    {
      var j := StaticMapFind(s', k);
      if j != i { StaticMapAt(s, j); }
    }
  }

  /** A slot is emptied. */
  lemma StaticMapClear(s: seq<Slot>, i: nat)
    requires Tidy(s) && i < |s|
    ensures Tidy(s[i := EMPTY]) && StaticMap(s[i := EMPTY]) == StaticMap(s) - {s[i].name}
  {
    hide StaticMap;
    var s', m := s[i := EMPTY], StaticMap(s) - {s[i].name};
    assert Tidy(s');
    forall k | k in m
      ensures k in StaticMap(s') && StaticMap(s')[k] == m[k]
    {
      var j := StaticMapFind(s, k);
      StaticMapAt(s', j);
    }
    forall k | k in StaticMap(s')
      ensures k in m
    {
      var j := StaticMapFind(s', k);
      StaticMapAt(s, j);
    }
  }

  class ChildTable {
    const slots: array<Slot>
    var dynamic: Option<map<Name, Id>>

    ghost predicate Valid()
      reads this, slots
    {
      && slots.Length == NUM_STATIC_CHILDREN && Tidy(slots[..])
      && (dynamic.Some? ==> "" !in dynamic.value && forall i | 0 <= i < slots.Length :: slots[i] == EMPTY)
    }

    ghost function Contents(): map<Name, Id>
      requires Valid()
      reads this, slots
    {
      if dynamic.Some? then dynamic.value else StaticMap(slots[..])
    }

    constructor ()
      ensures Valid() && fresh(slots) && Contents() == map[]
    {
      slots := new Slot[NUM_STATIC_CHILDREN](_ => EMPTY);
      dynamic := None;
    }

    method Lookup(name: Name) returns (node: Option<Id>)
      requires Valid()
      ensures node == if name in Contents() then Some(Contents()[name]) else None
    {
      if dynamic.Some? {
        return if name in dynamic.value then Some(dynamic.value[name]) else None;
      }
      for i := 0 to NUM_STATIC_CHILDREN
        invariant forall j | 0 <= j < i :: slots[j].name != name
      {
        if slots[i].name == name {
          if slots[i].node.Some? { StaticMapAt(slots[..], i); }
          return slots[i].node;
        }
      }
      return None;
    }

    method Remove(name: Name) returns (node: Option<Id>)
      requires Valid()
      modifies this, slots
      ensures Valid()
      ensures node == if name in old(Contents()) then Some(old(Contents())[name]) else None
      ensures Contents() == old(Contents()) - {name}
    {
      if dynamic.Some? {
        node := if name in dynamic.value then Some(dynamic.value[name]) else None;
        dynamic := Some(dynamic.value - {name});
        return;
      }
      for i := 0 to NUM_STATIC_CHILDREN
        invariant slots[..] == old(slots[..]) && dynamic == old(dynamic)
        invariant forall j | 0 <= j < i :: slots[j].name != name
      {
        if slots[i].name == name {
          if slots[i].node.Some? { StaticMapAt(slots[..], i); }
          StaticMapClear(slots[..], i);
          node := slots[i].node;
          slots[i] := EMPTY;
          assert slots[..] == old(slots[..])[i := EMPTY];
          return;
        }
      }
      return None;
    }

    /** There is a free slot. */
    ghost predicate HasSlot()
      reads this, slots
    {
      dynamic.None? && exists i | 0 <= i < slots.Length :: slots[i].node.None?
    }

    /** Inserts without a check for duplicates. A name that is already there is
        overruled, unless there is a free slot: then it is there twice, and the
        table is no longer one map. */
    method Insert(name: Name, node: Id)
      requires Valid() && name != ""
      modifies this, slots
      ensures Valid() <==> !(name in old(Contents()) && old(HasSlot()))
      ensures Valid() ==> Contents() == old(Contents())[name := node]
    {
      if dynamic.None? {
        for i := 0 to NUM_STATIC_CHILDREN
          invariant slots[..] == old(slots[..]) && dynamic == old(dynamic)
          invariant forall j | 0 <= j < i :: slots[j].node.Some?
        {
          if slots[i].node.None? {
            if name in Contents() {
              TwiceIsUntidy(slots[..], i, name, node);
            } else {
              StaticMapSet(slots[..], i, name, node);
            }
            slots[i] := Slot(name, Some(node));
            assert slots[..] == old(slots[..])[i := Slot(name, Some(node))];
            return;
          }
        }
        Shift();
      }
      dynamic := Some(dynamic.value[name := node]);
    }

    /** Move all children to the map. */
    method Shift()
      requires Valid() && dynamic.None? && forall j | 0 <= j < slots.Length :: slots[j].node.Some?
      modifies this, slots
      ensures Valid() && dynamic.Some? && Contents() == old(Contents())
    {
      hide StaticMap;
      var m: map<Name, Id> := map[];
      for i := 0 to NUM_STATIC_CHILDREN
        invariant dynamic == old(dynamic)
        invariant Tidy(slots[..]) && forall j | 0 <= j < i :: slots[j] == EMPTY
        invariant forall j | i <= j < slots.Length :: slots[j] == old(slots[j])
        invariant "" !in m && m.Keys !! StaticMap(slots[..]).Keys && old(Contents()) == m + StaticMap(slots[..])
      {
        ghost var was := slots[..];
        StaticMapAt(was, i);
        StaticMapClear(was, i);
        MoveOne(m, StaticMap(was), was[i].name);
        m := m[slots[i].name := slots[i].node.value];
        slots[i] := EMPTY;
        assert slots[..] == was[i := EMPTY];
      }
      StaticMapNone(slots[..]);
      dynamic := Some(m);
    }
  }

  lemma TwiceIsUntidy(s: seq<Slot>, i: nat, name: Name, node: Id)
    requires Tidy(s) && i < |s| && s[i].node.None? && name in StaticMap(s)
    ensures !Tidy(s[i := Slot(name, Some(node))])
  {
    var j := StaticMapFind(s, name);
    var s' := s[i := Slot(name, Some(node))];
    assert s'[j] == s[j] && s'[i].name == s'[j].name && i != j;
    if i < j {
      assert s'[i].node.Some? && s'[j].node.Some?;
    } else {
      assert s'[j].node.Some? && s'[i].node.Some?;
    }
  }

  lemma MoveOne(m: map<Name, Id>, rest: map<Name, Id>, k: Name)
    requires k in rest && m.Keys !! rest.Keys
    ensures m + rest == m[k := rest[k]] + (rest - {k}) && m[k := rest[k]].Keys !! (rest - {k}).Keys
  {
  }

  lemma StaticMapNone(s: seq<Slot>)
    requires forall i | 0 <= i < |s| :: s[i] == EMPTY
    ensures Tidy(s) && StaticMap(s) == map[]
  {
  }
}
