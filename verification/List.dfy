/** The singly linked list with first and last pointers, used as a queue and, by key, as a sorted list. */
module Lists {
  import opened Sequences

  datatype Option<T> = None | Some(value: T)

  datatype Entry<T> = Entry(item: T, key: int)

  /** s with e put before the first entry of a greater key. */
  ghost function Inserted<T>(s: seq<Entry<T>>, e: Entry<T>): (r: seq<Entry<T>>)
    ensures |r| == |s| + 1
  {
    if s == [] || e.key < s[0].key then [e] + s else [s[0]] + Inserted(s[1..], e)
  }

  ghost predicate Sorted<T>(s: seq<Entry<T>>) {
    forall i, j | 0 <= i < j < |s| :: s[i].key <= s[j].key
  }

  lemma {:induction false} InsertedAt<T>(s: seq<Entry<T>>, e: Entry<T>, p: nat)
    requires p <= |s|
    requires forall i | 0 <= i < p :: s[i].key <= e.key
    requires p < |s| ==> e.key < s[p].key
    ensures Inserted(s, e) == Spliced(s, p, e)
  {
    if p > 0 {
      InsertedAt(s[1..], e, p - 1);
    }
  }

  /** Where an entry goes: after every entry of an equal or smaller key that precedes the first greater one. */
  lemma {:induction false} InsertedPlace<T>(s: seq<Entry<T>>, e: Entry<T>) returns (p: nat)
    ensures p <= |s| && Inserted(s, e) == Spliced(s, p, e)
    ensures forall i | 0 <= i < p :: s[i].key <= e.key
    ensures p < |s| ==> e.key < s[p].key
  {
    p := 0;
    while p < |s| && s[p].key <= e.key
      invariant p <= |s|
      invariant forall i | 0 <= i < p :: s[i].key <= e.key
    {
      p := p + 1;
    }
    InsertedAt(s, e, p);
  }

  /** Insertion adds the entry and nothing else. */
  lemma InsertedMultiset<T>(s: seq<Entry<T>>, e: Entry<T>)
    ensures multiset(Inserted(s, e)) == multiset(s) + multiset{e}
  {
    var p := InsertedPlace(s, e);
    SplicedMultiset(s, p, e);
  }

  /** Insertion keeps a list sorted, and puts equal keys in order of arrival. */
  lemma InsertedSorted<T>(s: seq<Entry<T>>, e: Entry<T>)
    requires Sorted(s)
    ensures Sorted(Inserted(s, e))
    ensures exists p ::
      && 0 <= p <= |s| && Inserted(s, e) == Spliced(s, p, e)
      && forall i | 0 <= i < |s| :: s[i].key <= e.key <==> i < p
  {
    var p := InsertedPlace(s, e);
    var r := Inserted(s, e);
    assert forall i | 0 <= i < |s| :: s[i].key <= e.key <==> i < p;
    assert Sorted(r);
  }

  class ListElement<T> {
    var next: ListElement?<T>
    var key: int
    var item: T

    constructor (itemPtr: T, sortKey: int)
      ensures item == itemPtr && key == sortKey && next == null
    {
      item, key, next := itemPtr, sortKey, null;
    }
  }

  class List<T> {
    var first: ListElement?<T>
    var last: ListElement?<T>
    /** The elements from first to last, what they hold, and the objects of the list. */
    ghost var elements: seq<ListElement<T>>
    ghost var contents: seq<Entry<T>>
    ghost var repr: set<object>

    ghost predicate Valid()
      reads this, repr
    {
      && this in repr && (forall i | 0 <= i < |elements| :: elements[i] in repr)
      && (elements == [] ==> first == null && last == null)
      && (elements != [] ==> first == elements[0] && last == elements[|elements| - 1] && last.next == null)
      && (forall i | 0 <= i < |elements| - 1 :: elements[i].next == elements[i + 1])
      && Distinct(elements)
      && |contents| == |elements|
      && (forall i | 0 <= i < |elements| :: contents[i] == Entry(elements[i].item, elements[i].key))
    }

    constructor ()
      ensures Valid() && contents == [] && fresh(repr)
    {
      first, last, elements, contents, repr := null, null, [], [], {this};
    }

    predicate IsEmpty()
      requires Valid()
      reads this, repr
      ensures IsEmpty() <==> contents == []
    {
      first == null
    }

    /** Puts an element on its own, in front of the first, behind the last, or behind ptr, the one at index k. */
    method LinkOnly(element: ListElement<T>)
      requires Valid() && elements == [] && element.next == null
      modifies this
      ensures Valid() && repr == old(repr) + {element}
      ensures contents == [Entry(element.item, element.key)]
    {
      first, last := element, element;
      elements, contents, repr := [element], [Entry(element.item, element.key)], repr + {element};
    }

    method LinkFirst(element: ListElement<T>)
      requires Valid() && elements != [] && element !in repr
      modifies this, element
      ensures Valid() && repr == old(repr) + {element}
      ensures contents == [Entry(old(element.item), old(element.key))] + old(contents)
    {
      element.next := first;
      first := element;
      elements := [element] + elements;
      contents := [Entry(element.item, element.key)] + contents;
      repr := repr + {element};
    }

    method LinkLast(element: ListElement<T>)
      requires Valid() && elements != [] && element !in repr && element.next == null
      modifies this, last, element
      ensures Valid() && repr == old(repr) + {element}
      ensures contents == old(contents) + [Entry(old(element.item), old(element.key))]
    {
      last.next := element;
      last := element;
      elements := elements + [element];
      contents := contents + [Entry(element.item, element.key)];
      repr := repr + {element};
    }

    method LinkAfter(ptr: ListElement<T>, element: ListElement<T>, ghost k: nat)
      requires Valid() && k + 1 < |elements| && ptr == elements[k] && element !in repr
      modifies this, ptr, element
      ensures Valid() && repr == old(repr) + {element}
      ensures contents == Spliced(old(contents), k + 1, Entry(old(element.item), old(element.key)))
    {
      DistinctSpliced(elements, k + 1, element);
      hide Distinct;
      elements := Spliced(elements, k + 1, element);
      contents := Spliced(contents, k + 1, Entry(element.item, element.key));
      repr := repr + {element};
      element.next := ptr.next;
      ptr.next := element;
    }

    method Append(item: T)
      requires Valid()
      modifies repr
      ensures Valid() && fresh(repr - old(repr))
      ensures contents == old(contents) + [Entry(item, 0)]
    {
      var element := new ListElement(item, 0);
      if IsEmpty() {
        LinkOnly(element);
      } else {
        LinkLast(element);
      }
    }

    method Prepend(item: T)
      requires Valid()
      modifies repr
      ensures Valid() && fresh(repr - old(repr))
      ensures contents == [Entry(item, 0)] + old(contents)
    {
      var element := new ListElement(item, 0);
      if IsEmpty() {
        LinkOnly(element);
      } else {
        LinkFirst(element);
      }
    }

    /** The walk of SortedInsert: the element before the first of a greater key, or the last one. */
    method Before(sortKey: int) returns (ptr: ListElement<T>, ghost k: nat)
      requires Valid() && elements != [] && first.key <= sortKey
      ensures k < |elements| && ptr == elements[k]
      ensures ptr.next == if k + 1 < |elements| then elements[k + 1] else null
      ensures forall i | 0 <= i <= k :: elements[i].key <= sortKey
      ensures k + 1 < |elements| ==> sortKey < elements[k + 1].key
    {
      ptr, k := first, 0;
      while ptr.next != null
        invariant k < |elements| && ptr == elements[k]
        invariant ptr.next == if k + 1 < |elements| then elements[k + 1] else null
        invariant forall i | 0 <= i <= k :: elements[i].key <= sortKey
        decreases |elements| - k
      {
        if sortKey < ptr.next.key { return; }
        ptr, k := ptr.next, k + 1;
      }
    }

    /** Inserts an element that does not belong at the front. */
    method InsertBehind(element: ListElement<T>)
      requires Valid() && elements != [] && element !in repr && element.next == null
      requires first.key <= element.key
      modifies repr, element
      ensures Valid() && repr == old(repr) + {element}
      ensures contents == Inserted(old(contents), Entry(old(element.item), old(element.key)))
    {
      var ptr, k := Before(element.key);
      ghost var was := contents;
      assert forall i | 0 <= i < k + 1 :: was[i].key == elements[i].key;
      InsertedAt(was, Entry(element.item, element.key), k + 1);
      if ptr.next != null {
        LinkAfter(ptr, element, k);
      } else {
        LinkLast(element);
      }
    }

    method SortedInsert(item: T, sortKey: int)
      requires Valid()
      modifies repr
      ensures Valid() && fresh(repr - old(repr))
      ensures contents == Inserted(old(contents), Entry(item, sortKey))
    {
      var element := new ListElement(item, sortKey);
      if IsEmpty() {
        LinkOnly(element);
      } else if sortKey < first.key {
        InsertedAt(contents, Entry(item, sortKey), 0);
        LinkFirst(element);
      } else {
        InsertBehind(element);
      }
    }

    /** The first item and its key, or None of an empty list. */
    method SortedRemove() returns (removed: Option<Entry<T>>)
      requires Valid()
      modifies this
      ensures Valid() && repr == old(repr)
      ensures old(contents) == [] ==> removed == None && contents == []
      ensures old(contents) != [] ==> removed == Some(old(contents)[0]) && contents == old(contents)[1..]
    {
      if IsEmpty() { return None; }
      var element := first;
      if first == last {
        first, last := null, null;
      } else {
        first := element.next;
      }
      removed := Some(Entry(element.item, element.key));
      elements, contents := elements[1..], contents[1..];
    }

    method Remove() returns (removed: Option<T>)
      requires Valid()
      modifies this
      ensures Valid() && repr == old(repr)
      ensures old(contents) == [] ==> removed == None && contents == []
      ensures old(contents) != [] ==> removed == Some(old(contents)[0].item) && contents == old(contents)[1..]
    {
      var entry := SortedRemove();
      removed := if entry.Some? then Some(entry.value.item) else None;
    }
  }
}
