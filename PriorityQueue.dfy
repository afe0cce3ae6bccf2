/**
 * The sorted priority queue the alarm clock schedules its alarms in. Its own
 * implementation (a singly linked list) is not part of this model: the queue
 * is given by the sequence of its entries, kept in ascending order of
 * priority, with exactly the operations its callers use. An insertion goes
 * after every entry of equal or smaller priority, so among equal priorities
 * the earlier insertion stays first.
 */
module PriorityQueues {
  import opened JavaArith
  import opened Outcomes
  import opened Alarms

  datatype Entry = Entry(item: Alarm, priority: long)

  datatype QueueUnderflowException = QueueUnderflowException

  predicate Sorted(es: seq<Entry>) {
    forall i, j :: 0 <= i < j < |es| ==> es[i].priority <= es[j].priority
  }

  /** The priorities of the entries, front to back. */
  function Priorities(es: seq<Entry>): (ps: seq<long>)
    ensures |ps| == |es|
    ensures forall i :: 0 <= i < |es| ==> ps[i] == es[i].priority
  {
    seq(|es|, i requires 0 <= i < |es| => es[i].priority)
  }

  /** The queue after inserting `e`: in front of the first entry of strictly greater priority. */
  function InsertSorted(es: seq<Entry>, e: Entry): seq<Entry> {
    if es == [] then [e]
    else if es[0].priority > e.priority then [e] + es
    else [es[0]] + InsertSorted(es[1..], e)
  }

  /**
   * Insertion puts `e` at the first position whose entry has a strictly
   * greater priority and keeps every other entry in its order.
   */
  lemma {:induction false} InsertSortedAt(es: seq<Entry>, e: Entry, pos: nat)
    requires pos <= |es|
    requires forall j :: 0 <= j < pos ==> es[j].priority <= e.priority
    requires pos < |es| ==> es[pos].priority > e.priority
    ensures InsertSorted(es, e) == es[..pos] + [e] + es[pos..]
    decreases pos
  {
    if pos > 0 {
      InsertSortedAt(es[1..], e, pos - 1);
      assert es[1..][..pos - 1] == es[1..pos];
      assert es[1..][pos - 1..] == es[pos..];
      assert es[..pos] == [es[0]] + es[1..pos];
    }
  }

  /** The rank at which an entry of priority `key` is inserted: that of the first strictly greater priority. */
  function InsertPosition(es: seq<Entry>, key: long): (pos: nat)
    ensures pos <= |es|
    ensures forall j :: 0 <= j < pos ==> es[j].priority <= key
    ensures pos < |es| ==> es[pos].priority > key
  {
    if es == [] || es[0].priority > key then 0 else 1 + InsertPosition(es[1..], key)
  }

  /** Insertion keeps the queue sorted, adds exactly `e` and keeps every entry already present. */
  lemma InsertSortedSorted(es: seq<Entry>, e: Entry)
    requires Sorted(es)
    ensures Sorted(InsertSorted(es, e))
    ensures multiset(InsertSorted(es, e)) == multiset(es) + multiset{e}
    ensures |InsertSorted(es, e)| == |es| + 1
  {
    var pos := InsertPosition(es, e.priority);
    InsertSortedAt(es, e, pos);
    var r := es[..pos] + [e] + es[pos..];
    forall i, j | 0 <= i < j < |r| ensures r[i].priority <= r[j].priority {
      if j < pos {
        assert r[i] == es[i] && r[j] == es[j];
      } else if j == pos {
        assert r[i] == es[i];
      } else if i < pos {
        assert r[i] == es[i] && r[j] == es[j - 1];
      } else if i == pos {
        assert r[j] == es[j - 1];
        assert es[pos].priority <= es[j - 1].priority;
      } else {
        assert r[i] == es[i - 1] && r[j] == es[j - 1];
      }
    }
    assert Sorted(r);
    InsertSortedMultiset(es, e, pos);
  }

  lemma InsertSortedMultiset(es: seq<Entry>, e: Entry, pos: nat)
    requires pos <= |es|
    ensures multiset(es[..pos] + [e] + es[pos..]) == multiset(es) + multiset{e}
  {
    calc {
      multiset(es[..pos] + [e] + es[pos..]);
      multiset(es[..pos]) + multiset{e} + multiset(es[pos..]);
      { assert es == es[..pos] + es[pos..]; }
      multiset(es) + multiset{e};
    }
  }

  /** Removing the entry at any valid position keeps the queue sorted and the rest in order. */
  lemma RemovedAtSorted(es: seq<Entry>, position: nat)
    requires Sorted(es) && position < |es|
    ensures var r := es[..position] + es[position + 1..];
      && Sorted(r) && |r| == |es| - 1
      && (forall k :: 0 <= k < position ==> r[k] == es[k])
      && (forall k :: position <= k < |r| ==> r[k] == es[k + 1])
  {
    var r := es[..position] + es[position + 1..];
    forall i, j | 0 <= i < j < |r| ensures r[i].priority <= r[j].priority {
      var i' := if i < position then i else i + 1;
      var j' := if j < position then j else j + 1;
      assert r[i] == es[i'] && r[j] == es[j'];
    }
  }

  class SortedPriorityQueue {
    var entries: seq<Entry>

    ghost predicate Valid()
      reads this
    {
      Sorted(entries)
    }

    constructor ()
      ensures Valid() && entries == []
    {
      entries := [];
    }

    /** `add(item, priority)`: scan from the front to the first strictly greater priority and insert there. */
    method Add(item: Alarm, priority: long)
      requires Valid()
      modifies this
      ensures Valid()
      ensures entries == InsertSorted(old(entries), Entry(item, priority))
    {
      var e := Entry(item, priority);
      var pos := 0;
      while pos < |entries| && entries[pos].priority <= priority
        invariant 0 <= pos <= |entries|
        invariant forall j :: 0 <= j < pos ==> entries[j].priority <= priority
      {
        pos := pos + 1;
      }
      InsertSortedAt(entries, e, pos);
      InsertSortedSorted(entries, e);
      entries := entries[..pos] + [e] + entries[pos..];
    }

    /** `head()`: the item of smallest priority; an empty queue underflows. */
    method Head() returns (r: Result<Alarm, QueueUnderflowException>)
      ensures entries == [] <==> r == Failure(QueueUnderflowException)
      ensures entries != [] ==> r == Success(entries[0].item)
    {
      if entries == [] {
        r := Failure(QueueUnderflowException);
      } else {
        r := Success(entries[0].item);
      }
    }

    /** `remove()`: drop the entry of smallest priority; an empty queue underflows and is left as it is. */
    method Remove() returns (r: Outcome<QueueUnderflowException>)
      requires Valid()
      modifies this
      ensures Valid()
      ensures r.Fail? <==> old(entries) == []
      ensures entries == if old(entries) == [] then old(entries) else old(entries)[1..]
    {
      if entries == [] {
        r := Fail(QueueUnderflowException);
      } else {
        RemovedAtSorted(entries, 0);
        assert entries[..0] + entries[1..] == entries[1..];
        entries := entries[1..];
        r := Pass;
      }
    }

    /**
     * `remove(position)`: drop the entry at that rank (0 is the smallest
     * priority). A position that names no entry, including every position
     * of an empty queue, raises the one underflow exception and changes nothing.
     */
    method RemoveAt(position: int) returns (r: Outcome<QueueUnderflowException>)
      requires Valid()
      modifies this
      ensures Valid()
      ensures r.Fail? <==> !(0 <= position < |old(entries)|)
      ensures entries == if 0 <= position < |old(entries)|
        then old(entries)[..position] + old(entries)[position + 1..]
        else old(entries)
    {
      if 0 <= position < |entries| {
        RemovedAtSorted(entries, position);
        entries := entries[..position] + entries[position + 1..];
        r := Pass;
      } else {
        r := Fail(QueueUnderflowException);
      }
    }

    method IsEmpty() returns (empty: bool)
      ensures empty <==> |entries| == 0
    {
      empty := entries == [];
    }

    /** `getPriorityArray()`: a fresh array of the priorities in queue order. */
    method GetPriorityArray() returns (a: array<long>)
      ensures fresh(a)
      ensures a[..] == Priorities(entries)
    {
      a := new long[|entries|](i reads this requires 0 <= i < |entries| => entries[i].priority);
    }
  }
}
