/** The child list of a cJSON item: doubly linked in place, with the first child's `prev`
    pointing at the last one. Every edit is the matching sequence operation. */
module ChildList {
  /** The link fields of a cJSON item. */
  class Node {
    var next: Node?
    var prev: Node?
    var child: Node?
    /** What the list starting at `child` is. */
    ghost var children: seq<Node>

    constructor ()
      ensures next == prev == child == null && children == []
    {
      next, prev, child, children := null, null, null, [];
    }

    ghost predicate Linked()
      reads this, children
    {
      && this !in children
      && child == First(children)
      && (forall i {:trigger children[i].next} :: 0 <= i < |children| ==> children[i].next == Successor(children, i))
      && (forall i {:trigger children[i].prev} :: 0 <= i < |children| ==> children[i].prev == Predecessor(children, i))
      && Distinct(children)
    }

    /** get_array_item */
    method GetItem(index: nat) returns (item: Node?)
      requires Linked()
      ensures item == if index < |children| then children[index] else null
    {
      item := child;
      var left: nat := index;
      ghost var i: nat := 0;
      while item != null && left > 0
        invariant i + left == index && i <= |children|
        invariant item == if i < |children| then children[i] else null
        decreases left
      {
        assert item == children[i];
        left, i, item := left - 1, i + 1, item.next;
      }
    }

    /** How parse_array and parse_object link what they read: each new item behind the current
        one, and the first one's `prev` at the very end. */
    method LinkParsed(items: seq<Node>)
      requires child == null && children == [] && this !in items && Distinct(items)
      requires forall i {:trigger items[i]} :: 0 <= i < |items| ==> items[i].next == items[i].prev == null
      modifies this, items
      ensures Linked() && children == items
    {
      var head: Node?, current: Node? := null, null;
      for i := 0 to |items|
        invariant head == First(items[..i]) && current == if i == 0 then null else items[i - 1]
        invariant forall j {:trigger items[j].next} :: 0 <= j < |items| ==>
          items[j].next == if j + 1 < i then items[j + 1] else null
        invariant forall j {:trigger items[j].prev} :: 0 <= j < |items| ==>
          items[j].prev == if 0 < j < i then items[j - 1] else null
      {
        var newItem := items[i];
        if head == null {
          current, head := newItem, newItem;
        } else {
          current.next := newItem;
          newItem.prev := current;
          current := newItem;
        }
      }
      if head != null {
        head.prev := current;
      }
      child := head;
      children := items;
    }

    /** add_item_to_array, given an item that is in no list */
    method Append(item: Node?) returns (ok: bool)
      requires Linked() && (item != null ==> item !in children && item.next == null)
      modifies this, children, item
      ensures ok <==> item != null && item != this
      ensures ok ==> Linked() && children == old(children) + [item]
      ensures !ok ==> unchanged(this) && Linked()
    {
      if item == null || item == this {
        return false;
      }
      if child == null {
        child := item;
        item.prev := item;
        item.next := null;
      } else if child.prev != null {
        var last := child.prev;
        last.next := item;
        item.prev := last;
        child.prev := item;
      }
      children := children + [item];
      return true;
    }

    /** cJSON_InsertItemInArray, given an item that is in no list */
    method Insert(which: int, newItem: Node?) returns (ok: bool)
      requires Linked() && (newItem != null ==> newItem != this && newItem !in children && newItem.next == null)
      modifies this, children, newItem
      ensures ok <==> which >= 0 && newItem != null
      ensures ok ==> Linked() && children == Inserted(old(children), which, newItem)
      ensures !ok ==> unchanged(this) && Linked()
    {
      if which < 0 || newItem == null {
        return false;
      }
      var after := GetItem(which);
      if after == null {
        ok := Append(newItem);
        return;
      }
      if after != child && after.prev == null {
        return false;
      }
      LinkBefore(after, newItem, which);
      return true;
    }

    /** The pointer updates of an insertion. */
    method LinkBefore(after: Node, newItem: Node, ghost k: nat)
      requires Linked() && k < |children| && children[k] == after
      requires newItem != this && newItem !in children
      modifies this, children, newItem
      ensures Linked() && children == old(children)[..k] + [newItem] + old(children)[k..]
    {
      ghost var longer := children[..k] + [newItem] + children[k..];
      assert forall i :: 0 <= i < k ==> longer[i] == children[i];
      assert longer[k] == newItem;
      assert forall i :: k < i < |longer| ==> longer[i] == children[i - 1];
      assert after.prev == Predecessor(children, k);
      newItem.next := after;
      newItem.prev := after.prev;
      after.prev := newItem;
      if after == child {
        child := newItem;
      } else {
        newItem.prev.next := newItem;
      }
      assert forall i {:trigger longer[i].next} :: 0 <= i < |longer| ==> longer[i].next == Successor(longer, i);
      assert forall i {:trigger longer[i].prev} :: 0 <= i < |longer| ==> longer[i].prev == Predecessor(longer, i);
      children := longer;
    }

    /** cJSON_DetachItemViaPointer, given an item of this list or of none */
    method Detach(item: Node?) returns (detached: Node?)
      requires Linked() && (item != null ==> item in children || item.prev == null)
      modifies this, children, item
      ensures Linked() && detached == if item != null && item in old(children) then item else null
      ensures detached != null ==>
          detached.next == detached.prev == null && children == Without<Node?>(old(children), detached)
      ensures detached == null ==> unchanged(this) && unchanged(old(children))
    {
      if item == null || (item != child && item.prev == null) {
        return null;
      }
      ghost var k :| 0 <= k < |children| && children[k] == item;
      WithoutIs<Node?>(children, k);
      assert item.next == Successor(children, k) && item.prev == Predecessor(children, k);
      Unlink(item, k);
      return item;
    }

    /** The pointer updates of a detach. */
    method Unlink(item: Node, ghost k: nat)
      requires Linked() && k < |children| && children[k] == item
      modifies this, children
      ensures Linked() && children == old(children)[..k] + old(children)[k + 1..]
      ensures item.next == item.prev == null
    {
      if item != child {
        item.prev.next := item.next;
      }
      if item.next != null {
        item.next.prev := item.prev;
      }
      if item == child {
        child := item.next;
      } else if item.next == null {
        child.prev := item.prev;
      }
      item.prev := null;
      item.next := null;
      children := children[..k] + children[k + 1..];
    }

    /** cJSON_ReplaceItemViaPointer, given an item of this list and a replacement that is in
        none; the item is deleted. */
    method Replace(item: Node?, replacement: Node?) returns (ok: bool)
      requires Linked() && (item != null && children != [] ==> item in children)
      requires replacement != null && replacement != item ==> replacement != this && replacement !in children
      modifies this, children, replacement
      ensures Linked()
      ensures ok <==> old(children) != [] && item != null && replacement != null
      ensures ok ==> children == Replaced<Node?>(old(children), item, replacement)
      ensures ok && item != replacement ==> item.next == item.prev == null
      ensures !ok ==> unchanged(this) && unchanged(old(children))
    {
      if child == null || replacement == null || item == null {
        return false;
      }
      ghost var k :| 0 <= k < |children| && children[k] == item;
      ReplacedIs<Node?>(children, k, replacement);
      if replacement == item {
        return true;
      }
      Relink(item, replacement, k);
      return true;
    }

    /** The pointer updates of a replacement. */
    method Relink(item: Node, replacement: Node, ghost k: nat)
      requires Linked() && k < |children| && children[k] == item
      requires replacement != item && replacement != this && replacement !in children
      modifies this, children, replacement
      ensures Linked() && children == old(children)[k := replacement]
      ensures item.next == item.prev == null
    {
      assert item.next == Successor(children, k) && item.prev == Predecessor(children, k);
      replacement.next := item.next;
      replacement.prev := item.prev;
      if replacement.next != null {
        replacement.next.prev := replacement;
      }
      if child == item {
        if child.prev == child {
          replacement.prev := replacement;
        }
        child := replacement;
      } else {
        if replacement.prev != null {
          replacement.prev.next := replacement;
        }
        if replacement.next == null {
          child.prev := replacement;
        }
      }
      item.next := null;
      item.prev := null;
      children := children[k := replacement];
    }
  }

  ghost function First(s: seq<Node>): Node? { if s == [] then null else s[0] }

  ghost function Successor(s: seq<Node>, i: nat): Node?
    requires i < |s|
  {
    if i + 1 < |s| then s[i + 1] else null
  }

  /** The first item's `prev` is the last item. */
  ghost function Predecessor(s: seq<Node>, i: nat): Node
    requires i < |s|
  {
    if i == 0 then s[|s| - 1] else s[i - 1]
  }

  ghost predicate Distinct<T>(s: seq<T>) { forall i, j :: 0 <= i < j < |s| ==> s[i] != s[j] }

  /** `which` past the end means at the end. */
  ghost function Inserted<T>(s: seq<T>, which: nat, x: T): seq<T> {
    if which < |s| then s[..which] + [x] + s[which..] else s + [x]
  }

  ghost function Without<T>(s: seq<T>, x: T): seq<T> {
    if s == [] then [] else (if s[0] == x then [] else [s[0]]) + Without(s[1..], x)
  }

  ghost function Replaced<T>(s: seq<T>, x: T, y: T): seq<T> {
    if s == [] then [] else [if s[0] == x then y else s[0]] + Replaced(s[1..], x, y)
  }

  lemma {:induction false} WithoutIs<T>(s: seq<T>, k: nat)
    requires k < |s| && Distinct(s)
    ensures Without(s, s[k]) == s[..k] + s[k + 1..]
  {
    if k == 0 {
      WithoutAbsent(s[1..], s[0]);
    } else {
      WithoutIs(s[1..], k - 1);
      assert s[..k] == [s[0]] + s[1..][..k - 1] && s[1..][k..] == s[k + 1..];
    }
  }

  lemma {:induction false} WithoutAbsent<T>(s: seq<T>, x: T)
    requires x !in s
    ensures Without(s, x) == s
  {
    if s != [] {
      WithoutAbsent(s[1..], x);
    }
  }

  lemma {:induction false} ReplacedIs<T>(s: seq<T>, k: nat, y: T)
    requires k < |s| && Distinct(s)
    ensures Replaced(s, s[k], y) == s[k := y]
  {
    if k == 0 {
      ReplacedAbsent(s[1..], s[0], y);
    } else {
      ReplacedIs(s[1..], k - 1, y);
    }
  }

  lemma {:induction false} ReplacedAbsent<T>(s: seq<T>, x: T, y: T)
    requires x !in s
    ensures Replaced(s, x, y) == s
  {
    if s != [] {
      ReplacedAbsent(s[1..], x, y);
    }
  }

  /** Detaching what was inserted, and inserting what was detached where it was, change nothing. */
  lemma InsertThenDetach<T>(s: seq<T>, which: nat, x: T)
    requires Distinct(s) && x !in s
    ensures Without(Inserted(s, which, x), x) == s
  {
    var t, k := Inserted(s, which, x), if which < |s| then which else |s|;
    assert t[k] == x && Distinct(t);
    WithoutIs(t, k);
    assert t[..k] + t[k + 1..] == s;
  }

  lemma DetachThenInsert<T>(s: seq<T>, k: nat)
    requires k < |s| && Distinct(s)
    ensures Inserted(Without(s, s[k]), k, s[k]) == s
  {
    hide Without, Distinct;
    WithoutIs(s, k);
    var t := s[..k] + s[k + 1..];
    assert t[..k] == s[..k] && t[k..] == s[k + 1..];
    assert k == |t| ==> t == s[..k] && s[k..] == [s[k]];
  }
}
