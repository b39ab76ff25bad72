/** The packing rule shared by the table, list and sentence splitters: keep adding items to
    the open block while the block still fits, otherwise close it.  A block of one item is
    never split, whatever its size. */
module Packing {

  /** The blocks produced from `items` when `open` is the block being filled. */
  function Greedy<T>(open: seq<T>, items: seq<T>, fits: seq<T> -> bool): (blocks: seq<seq<T>>)
    decreases |items|
  {
    if items == [] then (if open == [] then [] else [open])
    else if open != [] && !fits(open + [items[0]]) then [open] + Greedy([items[0]], items[1..], fits)
    else Greedy(open + [items[0]], items[1..], fits)
  }

  /** One step of packing, seen from inside a loop over `items`. */
  lemma GreedyStep<T>(open: seq<T>, items: seq<T>, i: nat, fits: seq<T> -> bool)
    requires i < |items|
    ensures Greedy(open, items[i..], fits) ==
      if open != [] && !fits(open + [items[i]])
      then [open] + Greedy([items[i]], items[i + 1..], fits)
      else Greedy(open + [items[i]], items[i + 1..], fits)
  {
    assert items[i..][0] == items[i] && items[i..][1..] == items[i + 1..];
  }

  lemma GreedyEnd<T>(open: seq<T>, fits: seq<T> -> bool)
    ensures Greedy(open, [], fits) == if open == [] then [] else [open]
  {
  }

  function Flatten<T>(blocks: seq<seq<T>>): (r: seq<T>)
  {
    if blocks == [] then [] else blocks[0] + Flatten(blocks[1..])
  }

  lemma {:induction false} FlattenMembers<T>(blocks: seq<seq<T>>, i: nat)
    requires i < |blocks|
    ensures forall x :: x in blocks[i] ==> x in Flatten(blocks)
  {
    if i > 0 {
      FlattenMembers(blocks[1..], i - 1);
    }
  }

  lemma {:induction false} BlockWith<T>(blocks: seq<seq<T>>, x: T)
    requires x in Flatten(blocks)
    ensures exists i :: 0 <= i < |blocks| && x in blocks[i]
  {
    if x !in blocks[0] {
      BlockWith(blocks[1..], x);
      var i :| 0 <= i < |blocks[1..]| && x in blocks[1..][i];
      assert blocks[i + 1] == blocks[1..][i];
    }
  }

  ghost predicate Admissible<T>(block: seq<T>, fits: seq<T> -> bool)
  {
    |block| == 1 || (block != [] && fits(block))
  }

  /** An order-preserving split of `items` into single items and fitting blocks. */
  ghost predicate Partition<T>(blocks: seq<seq<T>>, items: seq<T>, fits: seq<T> -> bool)
  {
    Flatten(blocks) == items &&
    forall i :: 0 <= i < |blocks| ==> Admissible(blocks[i], fits)
  }

  /** Taking a contiguous part of a fitting block leaves it fitting. */
  ghost predicate Hereditary<T(!new)>(fits: seq<T> -> bool)
  {
    forall b, i, j :: 0 <= i < j <= |b| && fits(b) ==> fits(b[i..j])
  }

  lemma {:induction false} GreedyIsPartition<T>(open: seq<T>, items: seq<T>, fits: seq<T> -> bool)
    requires open == [] || Admissible(open, fits)
    ensures Partition(Greedy(open, items, fits), open + items, fits)
    decreases |items|
  {
    if items == [] {
      assert Flatten([open]) == open + Flatten([]);
    } else {
      assert open + items == open + [items[0]] + items[1..];
      if open != [] && !fits(open + [items[0]]) {
        GreedyIsPartition([items[0]], items[1..], fits);
        assert open + items == open + ([items[0]] + items[1..]);
      } else {
        GreedyIsPartition(open + [items[0]], items[1..], fits);
      }
    }
  }

  lemma InsideFits<T(!new)>(
      before: seq<T>, part: seq<T>, after: seq<T>, block: seq<T>, rest: seq<T>, fits: seq<T> -> bool)
    requires Hereditary(fits) && Admissible(block, fits)
    requires before + part + after == block + rest
    requires 2 <= |part| && |before| + |part| <= |block|
    ensures fits(part)
  {
    var n := |before| + |part|;
    assert part == (before + part + after)[|before|..n] == block[|before|..n];
  }

  /** No other split uses fewer blocks.  `behind` is what the rival split may still have to
      cover before the greedy one's open block: greedy never falls behind. */
  lemma {:induction false} GreedyStaysAhead<T(!new)>(
      behind: seq<T>, open: seq<T>, items: seq<T>, rival: seq<seq<T>>, fits: seq<T> -> bool)
    requires Hereditary(fits) && open != []
    requires Partition(rival, behind + open + items, fits)
    ensures |Greedy(open, items, fits)| <= |rival|
    decreases |items|, |rival|
  {
    if items != [] {
      var x := items[0];
      var whole := behind + open + items;
      assert open + items == open + [x] + items[1..];
      if fits(open + [x]) {
        assert whole == behind + (open + [x]) + items[1..];
        GreedyStaysAhead(behind, open + [x], items[1..], rival, fits);
      } else {
        var first := rival[0];
        assert whole == first + Flatten(rival[1..]);
        if |first| > |behind| + |open| {
          InsideFits(behind, open + [x], items[1..], first, Flatten(rival[1..]), fits);
          assert false;
        }
        var rest := (behind + open)[|first|..];
        assert whole == behind + open + ([x] + items[1..]);
        assert whole[|first|..] == rest + ([x] + items[1..]) == rest + [x] + items[1..];
        assert Flatten(rival[1..]) == whole[|first|..];
        assert Partition(rival[1..], rest + [x] + items[1..], fits);
        GreedyStaysAhead(rest, [x], items[1..], rival[1..], fits);
      }
    }
  }

  /** Greedy packing is optimal. */
  lemma GreedyIsOptimal<T(!new)>(items: seq<T>, rival: seq<seq<T>>, fits: seq<T> -> bool)
    requires Hereditary(fits) && Partition(rival, items, fits)
    ensures |Greedy([], items, fits)| <= |rival|
  {
    if items != [] {
      assert [] + [items[0]] == [items[0]];
      assert [] + [items[0]] + items[1..] == items;
      GreedyStaysAhead([], [items[0]], items[1..], rival, fits);
    }
  }

  /** `block` was closed because the first item of `next` did not fit it. */
  ghost predicate ClosedBefore<T>(block: seq<T>, next: seq<T>, fits: seq<T> -> bool)
  {
    next != [] && !fits(block + [next[0]])
  }

  ghost predicate Maximal<T>(blocks: seq<seq<T>>, fits: seq<T> -> bool)
  {
    forall j :: 1 <= j < |blocks| ==> ClosedBefore(blocks[j - 1], blocks[j], fits)
  }

  /** Every block is closed only when the next item does not fit it. */
  lemma {:induction false} GreedyIsMaximal<T>(open: seq<T>, items: seq<T>, fits: seq<T> -> bool)
    ensures var blocks := Greedy(open, items, fits);
      (open != [] ==> blocks != [] && open <= blocks[0]) && Maximal(blocks, fits)
    decreases |items|
  {
    if items != [] {
      if open != [] && !fits(open + [items[0]]) {
        var rest := Greedy([items[0]], items[1..], fits);
        GreedyIsMaximal([items[0]], items[1..], fits);
        assert rest[0][0] == [items[0]][0];
        var blocks := [open] + rest;
        assert forall j :: 1 <= j < |blocks| ==> blocks[j] == rest[j - 1];
      } else {
        GreedyIsMaximal(open + [items[0]], items[1..], fits);
      }
    }
  }
}
