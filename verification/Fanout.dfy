/**
 What the two batch protocols share: bounded concurrency, and the bookkeeping of which items have had
 their result sent.
 */
module Fanout {

  /** A path to upload or a range to append to. */
  datatype Item = Item(name: string)

  datatype Sent = Sent(item: Item, ok: bool)

  const MAX_CONCURRENCY := 5

  /** drive_batch.go `clampConcurrency`. */
  function ClampConcurrency(n: int, max: int): (r: int)
    ensures max >= 1 ==> 1 <= r <= max
    ensures r > n ==> r == 1
    ensures r < n ==> r == max
  {
    if n < 1 then 1 else if n > max then max else n
  }

  /** The items at the marked positions. */
  function Tally(marks: seq<bool>, items: seq<Item>): multiset<Item>
    requires |marks| == |items|
  {
    if marks == [] then multiset{}
    else (if marks[0] then multiset{items[0]} else multiset{}) + Tally(marks[1..], items[1..])
  }

  lemma {:induction false} TallyMark(marks: seq<bool>, items: seq<Item>, i: nat)
    requires i < |marks| == |items| && !marks[i]
    ensures Tally(marks[i := true], items) == Tally(marks, items) + multiset{items[i]}
  {
    if i == 0 {
      assert marks[i := true][1..] == marks[1..];
    } else {
      assert marks[i := true][1..] == marks[1..][i - 1 := true];
      TallyMark(marks[1..], items[1..], i - 1);
    }
  }

  lemma {:induction false} TallyNone(marks: seq<bool>, items: seq<Item>)
    requires |marks| == |items| && forall i :: 0 <= i < |marks| ==> !marks[i]
    ensures Tally(marks, items) == multiset{}
  {
    if marks != [] {
      TallyNone(marks[1..], items[1..]);
    }
  }

  /** Two tallies of items with no mark in common; together they miss what neither marks. */
  lemma {:induction false} TallyTwo(a: seq<bool>, b: seq<bool>, items: seq<Item>)
    requires |a| == |b| == |items| && forall i :: 0 <= i < |a| ==> !(a[i] && b[i])
    ensures |Tally(a, items)| + |Tally(b, items)| <= |items|
    ensures (exists i :: 0 <= i < |a| && !a[i] && !b[i]) ==> |Tally(a, items)| + |Tally(b, items)| < |items|
    ensures (forall i :: 0 <= i < |a| ==> a[i] || b[i]) ==> Tally(a, items) + Tally(b, items) == multiset(items)
  {
    if items != [] {
      TallyTwo(a[1..], b[1..], items[1..]);
      assert items == [items[0]] + items[1..];
      if i :| 0 < i < |a| && !a[i] && !b[i] {
        assert !a[1..][i - 1] && !b[1..][i - 1];
      }
    }
  }

  /** The items of the reports with this outcome. */
  function ItemsOf(queue: seq<Sent>, ok: bool): multiset<Item> {
    if queue == [] then multiset{}
    else (if queue[0].ok == ok then multiset{queue[0].item} else multiset{}) + ItemsOf(queue[1..], ok)
  }

  lemma {:induction false} QueueSize(queue: seq<Sent>)
    ensures |ItemsOf(queue, true)| + |ItemsOf(queue, false)| == |queue|
  {
    if queue != [] {
      QueueSize(queue[1..]);
    }
  }

  lemma {:induction false} ItemsOfAppend(queue: seq<Sent>, s: Sent, ok: bool)
    ensures ItemsOf(queue + [s], ok) == ItemsOf(queue, ok) + if s.ok == ok then multiset{s.item} else multiset{}
  {
    if queue != [] {
      assert (queue + [s])[1..] == queue[1..] + [s];
      ItemsOfAppend(queue[1..], s, ok);
    }
  }
}
