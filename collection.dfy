/**
 * The priority collection each event name and the subscriber-handler chain
 * keep: entries ordered by ascending priority, equal priorities in the order
 * they were added. Every entry carries the sequence number it was added with;
 * numbers only grow, so "added later" is "larger number".
 */
module Collection {

  datatype Entry<T> = Entry(priority: int, seqNo: nat, item: T)

  /** `a` is delivered before `b`: lower priority first, then earlier addition. */
  predicate Before<T>(a: Entry<T>, b: Entry<T>) {
    a.priority < b.priority || (a.priority == b.priority && a.seqNo < b.seqNo)
  }

  /** The collection's ordering invariant. */
  ghost predicate Sorted<T>(b: seq<Entry<T>>) {
    forall i, j | 0 <= i < j < |b| :: Before(b[i], b[j])
  }

  /** Every entry was added before sequence number `next` was handed out. */
  ghost predicate AddedBefore<T>(b: seq<Entry<T>>, next: nat) {
    forall i | 0 <= i < |b| :: b[i].seqNo < next
  }

  /** The items in delivery order (`getOrderedElements`). */
  function Items<T>(b: seq<Entry<T>>): (r: seq<T>)
    ensures |r| == |b|
    ensures forall i | 0 <= i < |b| :: r[i] == b[i].item
  {
    if b == [] then [] else [b[0].item] + Items(b[1..])
  }

  /** How many leading entries have a priority at most `p`. */
  function InsertionPoint<T>(b: seq<Entry<T>>, p: int): (k: nat)
    ensures k <= |b|
  {
    if b == [] || b[0].priority > p then 0 else 1 + InsertionPoint(b[1..], p)
  }

  /** `add(priority, item)`: the new entry goes after every entry of lower or equal priority. */
  function Insert<T>(b: seq<Entry<T>>, e: Entry<T>): (r: seq<Entry<T>>)
    ensures |r| == |b| + 1
  {
    if b == [] || b[0].priority > e.priority then [e] + b
    else [b[0]] + Insert(b[1..], e)
  }

  /** `remove(item)`: every entry holding `x` is dropped, the others keep their order. */
  function Remove<T(==)>(b: seq<Entry<T>>, x: T): (r: seq<Entry<T>>)
    ensures |r| <= |b|
    ensures forall f | f in r :: f in b && f.item != x
  {
    if b == [] then []
    else if b[0].item == x then Remove(b[1..], x)
    else [b[0]] + Remove(b[1..], x)
  }

  /** The new entry lands exactly at the insertion point: after all entries of
      priority at most its own (ties included) and before all entries of higher
      priority; nothing else moves. */
  lemma {:induction false} InsertAtInsertionPoint<T>(b: seq<Entry<T>>, e: Entry<T>)
    requires Sorted(b)
    ensures var k := InsertionPoint(b, e.priority);
      && Insert(b, e) == b[..k] + [e] + b[k..]
      && (forall i | 0 <= i < k :: b[i].priority <= e.priority)
      && (forall i | k <= i < |b| :: b[i].priority > e.priority)
  {
    if b != [] && b[0].priority <= e.priority {
      InsertAtInsertionPoint(b[1..], e);
      var k := InsertionPoint(b[1..], e.priority);
      assert b[1..][..k] == b[1..k + 1];
      assert b[1..][k..] == b[k + 1..];
      assert [b[0]] + b[1..k + 1] == b[..k + 1];
      forall i | k + 1 <= i < |b| ensures b[i].priority > e.priority {
        assert b[1..][i - 1] == b[i];
      }
    } else if b != [] {
      forall i | 0 <= i < |b| ensures b[i].priority > e.priority {
        if i > 0 { assert Before(b[0], b[i]); }
      }
    }
  }

  /** Adding an entry whose sequence number is fresh keeps the collection ordered,
      and adds exactly that entry. */
  lemma {:induction false} InsertKeepsSorted<T>(b: seq<Entry<T>>, e: Entry<T>)
    requires Sorted(b) && AddedBefore(b, e.seqNo)
    ensures Sorted(Insert(b, e))
    ensures multiset(Insert(b, e)) == multiset(b) + multiset{e}
  {
    if b == [] {
    } else if b[0].priority > e.priority {
      var r := [e] + b;
      forall i, j | 0 <= i < j < |r| ensures Before(r[i], r[j]) {
        if i == 0 && j > 1 { assert Before(b[0], b[j - 1]); }
      }
    } else {
      InsertKeepsSorted(b[1..], e);
      var rest := Insert(b[1..], e);
      var r := [b[0]] + rest;
      assert multiset(b) == multiset{b[0]} + multiset(b[1..]) by {
        assert b == [b[0]] + b[1..];
      }
      forall i, j | 0 <= i < j < |r| ensures Before(r[i], r[j]) {
        if i == 0 {
          assert r[j] in multiset(rest);
          assert r[j] in multiset(b[1..]) || r[j] == e;
          if r[j] != e {
            var m :| 0 <= m < |b[1..]| && b[1..][m] == r[j];
            assert Before(b[0], b[m + 1]);
          }
        }
      }
    }
  }

  /** After `remove(x)` no entry holds `x`, every other entry is still there, and
      nothing new appeared. */
  lemma {:induction false} RemoveDropsExactly<T>(b: seq<Entry<T>>, x: T, e: Entry<T>)
    ensures e in Remove(b, x) <==> e in b && e.item != x
  {
    if b != [] {
      RemoveDropsExactly(b[1..], x, e);
      assert e in b <==> e == b[0] || e in b[1..];
    }
  }

  /** Removal keeps the remaining entries in their relative order. */
  lemma {:induction false} RemoveKeepsSorted<T>(b: seq<Entry<T>>, x: T)
    requires Sorted(b)
    ensures Sorted(Remove(b, x))
    ensures forall next: nat :: AddedBefore(b, next) ==> AddedBefore(Remove(b, x), next)
  {
    if b != [] {
      RemoveKeepsSorted(b[1..], x);
      var rest := Remove(b[1..], x);
      forall e | e in rest ensures e in b[1..] { RemoveDropsExactly(b[1..], x, e); }
      if b[0].item != x {
        var r := [b[0]] + rest;
        forall i, j | 0 <= i < j < |r| ensures Before(r[i], r[j]) {
          if i == 0 {
            assert r[j] in b[1..];
            var m :| 0 <= m < |b[1..]| && b[1..][m] == r[j];
            assert Before(b[0], b[m + 1]);
          }
        }
      }
      forall next: nat | AddedBefore(b, next) ensures AddedBefore(Remove(b, x), next) {
        var r := Remove(b, x);
        forall i | 0 <= i < |r| ensures r[i].seqNo < next {
          assert r[i] in r;
          RemoveDropsExactly(b, x, r[i]);
        }
      }
    }
  }

  /** Removing an item never grows a collection. */
  lemma {:induction false} RemoveShrinks<T>(b: seq<Entry<T>>, x: T)
    ensures |Remove(b, x)| <= |b|
    ensures x !in Items(Remove(b, x))
  {
    if b != [] {
      RemoveShrinks(b[1..], x);
    }
  }

  /** Removing an item the collection does not hold changes nothing. */
  lemma {:induction false} RemoveAbsent<T>(b: seq<Entry<T>>, x: T)
    requires forall e | e in b :: e.item != x
    ensures Remove(b, x) == b
  {
    if b != [] {
      assert b[0] in b;
      RemoveAbsent(b[1..], x);
      assert [b[0]] + b[1..] == b;
    }
  }
}
