/** The child chains of cJSON.c: doubly linked lists changed in place. */
module JsonList {

  function At(s: seq<Item>, i: int): (c: Item?) {
    if 0 <= i < |s| then s[i] else null
  }

  ghost predicate Distinct(s: seq<Item>) {
    forall i, j :: 0 <= i < j < |s| ==> s[i] != s[j]
  }

  /** Item `i` of a chain stands between its neighbours. */
  ghost predicate LinkedAt(s: seq<Item>, i: int)
    requires 0 <= i < |s|
    reads s
  {
    s[i].next == At(s, i + 1) && s[i].prev == At(s, i - 1)
  }

  class Item {
    var next: Item?
    var prev: Item?
    var child: Item?
    /** The chain that starts at `child`. */
    ghost var children: seq<Item>

    /** The chain has no repetition, ends in null both ways, and next and prev undo each other. */
    ghost predicate Valid()
      reads this, children
    {
      && this !in children && Distinct(children) && child == At(children, 0)
      && forall i {:trigger LinkedAt(children, i)} :: 0 <= i < |children| ==> LinkedAt(children, i)
    }

    /** cJSON_New_Item. */
    constructor ()
      ensures Valid() && children == [] && Unlinked()
    {
      next, prev, child, children := null, null, null, [];
    }

    predicate Unlinked()
      reads this
    {
      next == null && prev == null
    }

    /** An item that may be put into the chain. */
    ghost predicate Accepts(item: Item)
      reads this, item
    {
      item != this && item !in children && item.Unlinked()
    }

    /** The walk all operations share: `which` steps along next, and none for a negative number. */
    method Walk(which: int) returns (c: Item?)
      requires Valid()
      ensures c == At(children, Index(which))
    {
      c := child;
      var left := which;
      ghost var i := 0;
      while c != null && left > 0
        invariant 0 <= i <= |children| && c == At(children, i)
        invariant left <= 0 ==> i == Index(which)
        invariant left > 0 ==> i + left == which
        decreases |children| - i
      {
        assert LinkedAt(children, i);
        c := c.next;
        left := left - 1;
        i := i + 1;
      }
    }

    /** cJSON_GetArraySize. */
    method GetArraySize() returns (n: nat)
      requires Valid()
      ensures n == |children|
    {
      var c := child;
      n := 0;
      while c != null
        invariant n <= |children| && c == At(children, n)
        decreases |children| - n
      {
        assert LinkedAt(children, n);
        n := n + 1;
        c := c.next;
      }
    }

    /** cJSON_AddItemToArray. */
    method AddItem(item: Item)
      requires Valid() && Accepts(item)
      modifies this, children, item
      ensures Valid() && children == old(children) + [item]
    {
      ghost var s := children;
      var c := child;
      if c == null {
        child := item;
      } else {
        ghost var i := 0;
        assert LinkedAt(s, 0);
        while c.next != null
          invariant 0 <= i < |s| && c == s[i] && c.next == At(s, i + 1)
          decreases |s| - i
        {
          c := c.next;
          i := i + 1;
          assert LinkedAt(s, i);
        }
        c.next := item;
        item.prev := c;
      }
      children := s + [item];
      forall i | 0 <= i < |children| ensures LinkedAt(children, i) {
        if i < |s| { assert old(LinkedAt(s, i)); }
      }
    }

    /** cJSON_DetachItemFromArray. */
    method DetachItem(which: int) returns (c: Item?)
      requires Valid()
      modifies this, children
      ensures Valid() && c == At(old(children), Index(which))
      ensures c != null ==> c.Unlinked() && children == Without(old(children), Index(which))
      ensures c == null ==> children == old(children)
    {
      ghost var s, k := children, Index(which);
      c := Walk(which);
      if c == null {
        return;
      }
      assert LinkedAt(s, k);
      if c.prev != null {
        c.prev.next := c.next;
      }
      if c.next != null {
        c.next.prev := c.prev;
      }
      if c == child {
        child := c.next;
      }
      c.prev := null;
      c.next := null;
      children := Without(s, k);
      forall i | 0 <= i < |children| ensures LinkedAt(children, i) {
        assert old(LinkedAt(s, if i < k then i else i + 1));
      }
    }

    /** cJSON_InsertItemInArray. */
    method InsertItem(which: int, item: Item)
      requires Valid() && Accepts(item)
      modifies this, children, item
      ensures Valid()
      ensures var k := Index(which);
        children == if k < |old(children)| then Inserted(old(children), k, item) else old(children) + [item]
    {
      ghost var s, k := children, Index(which);
      var c := Walk(which);
      if c == null {
        AddItem(item);
        return;
      }
      assert LinkedAt(s, k);
      item.next := c;
      item.prev := c.prev;
      c.prev := item;
      if c == child {
        child := item;
      } else {
        item.prev.next := item;
      }
      children := Inserted(s, k, item);
      forall i | 0 <= i < |children| ensures LinkedAt(children, i) {
        if i != k { assert old(LinkedAt(s, if i < k then i else i - 1)); }
      }
    }

    /** cJSON_ReplaceItemInArray, up to the deletion of the old item. */
    method ReplaceItem(which: int, item: Item) returns (c: Item?)
      requires Valid() && Accepts(item)
      modifies this, children, item
      ensures Valid() && c == At(old(children), Index(which))
      ensures c != null ==> c.Unlinked() && children == old(children)[Index(which) := item]
      ensures c == null ==> children == old(children) && item.Unlinked()
    {
      ghost var s, k := children, Index(which);
      c := Walk(which);
      if c == null {
        return;
      }
      assert LinkedAt(s, k);
      item.next := c.next;
      item.prev := c.prev;
      if item.next != null {
        item.next.prev := item;
      }
      if c == child {
        child := item;
      } else {
        item.prev.next := item;
      }
      c.next := null;
      c.prev := null;
      children := s[k := item];
      forall i | 0 <= i < |children| ensures LinkedAt(children, i) {
        if i != k { assert old(LinkedAt(s, i)); }
      }
    }
  }

  function Index(which: int): (k: nat) {
    if which < 0 then 0 else which
  }

  function Without(s: seq<Item>, k: nat): (r: seq<Item>)
    requires k < |s|
    ensures |r| == |s| - 1
  {
    s[..k] + s[k + 1..]
  }

  function Inserted(s: seq<Item>, k: nat, item: Item): (r: seq<Item>)
    requires k <= |s|
    ensures |r| == |s| + 1
  {
    s[..k] + [item] + s[k..]
  }

  /** Detaching what was inserted, or inserting what was detached, gives the chain back. */
  lemma InsertThenDetach(s: seq<Item>, k: nat, item: Item)
    requires k <= |s|
    ensures Without(Inserted(s, k, item), k) == s
    ensures k < |s| ==> Inserted(Without(s, k), k, s[k]) == s
  {}

  /** Replacing is detaching and inserting at the same place. */
  lemma ReplaceIsBoth(s: seq<Item>, k: nat, item: Item)
    requires k < |s|
    ensures s[k := item] == Inserted(Without(s, k), k, item)
  {}
}
