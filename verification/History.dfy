/** The debugger's program-counter history (src/debugger.cpp:969-999, src/debugger.hpp:27-40) and the
    sequence of additions it remembers. */
module History {
  import opened Words

  const PC_HISTORY_SIZE: nat := 1024

  // The last k elements
  function Last<T>(log: seq<T>, k: nat): seq<T>
    requires k <= |log|
  {
    log[|log| - k..]
  }

  function Min(a: nat, b: nat): nat { if a < b then a else b }

  // What the buffer still holds of everything added, oldest first
  function Kept<T>(log: seq<T>): seq<T>
  {
    Last(log, Min(|log|, PC_HISTORY_SIZE))
  }

  // What `mostRecent` returns after these additions.  Asked for more than a full buffer holds, it
  // starts at the buffer's first slot instead of the oldest element.
  function MostRecentOf<T>(log: seq<T>, n: nat): seq<T>
  {
    if n <= PC_HISTORY_SIZE || |log| < PC_HISTORY_SIZE then Last(log, Min(n, |Kept(log)|))
    else
      var head := |log| % PC_HISTORY_SIZE;
      Rotated(log, head)
  }

  // The position in the log of the j-th element that `mostRecent` returns
  function Source(size: nat, n: nat, j: nat): (i: nat)
    requires j < Min(n, Min(size, PC_HISTORY_SIZE))
    ensures size - PC_HISTORY_SIZE <= i < size
  {
    if n <= PC_HISTORY_SIZE || size < PC_HISTORY_SIZE then size - Min(n, Min(size, PC_HISTORY_SIZE)) + j
    else
      var head := size % PC_HISTORY_SIZE;
      if j < head then size - head + j else size - PC_HISTORY_SIZE + (j - head)
  }

  lemma MostRecentAt<T>(log: seq<T>, n: nat)
    ensures |MostRecentOf(log, n)| == Min(n, Min(|log|, PC_HISTORY_SIZE))
    ensures forall j :: 0 <= j < |MostRecentOf(log, n)| ==> MostRecentOf(log, n)[j] == log[Source(|log|, n, j)]
  {
    if n > PC_HISTORY_SIZE && |log| >= PC_HISTORY_SIZE {
      WrappedAt(log, |log| % PC_HISTORY_SIZE);
      hide Last, Kept;
    }
  }

  lemma WrappedAt<T>(log: seq<T>, head: nat)
    requires head <= PC_HISTORY_SIZE <= |log|
    ensures var r := Rotated(log, head);
            && |r| == PC_HISTORY_SIZE
            && (forall j :: 0 <= j < head ==> r[j] == log[|log| - head + j])
            && (forall j :: head <= j < PC_HISTORY_SIZE ==> r[j] == log[|log| - PC_HISTORY_SIZE + (j - head)])
  {
  }

  class RingBuffer {
    const buffer: array<Word>
    var head: nat
    var full: bool
    ghost var log: seq<Word>

    ghost predicate Valid()
      reads this, buffer
    {
      && buffer.Length == PC_HISTORY_SIZE
      && head == |log| % PC_HISTORY_SIZE
      && (full <==> |log| >= PC_HISTORY_SIZE)
      && forall i :: 0 <= i < |log| && |log| - PC_HISTORY_SIZE <= i ==> buffer[i % PC_HISTORY_SIZE] == log[i]
    }

    constructor ()
      ensures Valid() && log == [] && fresh(buffer)
    {
      buffer := new Word[PC_HISTORY_SIZE];
      head, full, log := 0, false, [];
    }

    method Add(element: Word)
      requires Valid()
      modifies this, buffer
      ensures Valid() && log == old(log) + [element]
    {
      SlotsDiffer(|log|);
      buffer[head] := element;
      head := (head + 1) % PC_HISTORY_SIZE;
      if head == 0 {
        full := true;
      }
      log := log + [element];
    }

    // The last element added, or none
    method Peek() returns (found: bool, element: Word)
      requires Valid()
      ensures found <==> log != []
      ensures found ==> element == log[|log| - 1]
    {
      if head == 0 && !full {
        return false, 0;
      }
      PreviousSlot(|log|);
      var lastIndex := if head == 0 then PC_HISTORY_SIZE - 1 else head - 1;
      return true, buffer[lastIndex];
    }

    method MostRecent(n: nat) returns (result: seq<Word>)
      requires Valid()
      ensures result == MostRecentOf(log, n)
    {
      hide MostRecentOf, Source;
      var count := if full then PC_HISTORY_SIZE else head;
      var nToReturn := Min(n, count);
      var start := if count >= n then (head + PC_HISTORY_SIZE - nToReturn) % PC_HISTORY_SIZE else 0;
      result := [];
      for i := 0 to nToReturn
        invariant |result| == i
        invariant forall j :: 0 <= j < i ==> result[j] == buffer[(start + j) % PC_HISTORY_SIZE]
      {
        result := result + [buffer[(start + i) % PC_HISTORY_SIZE]];
      }
      forall j | 0 <= j < nToReturn
        ensures result[j] == log[Source(|log|, n, j)]
      {
        SlotOfResult(|log|, n, j);
      }
      MostRecentAt(log, n);
    }
  }

  // Within one turn of the buffer, different additions have different slots.
  lemma SlotsDiffer(size: nat)
    ensures (size + 1) % PC_HISTORY_SIZE == (size % PC_HISTORY_SIZE + 1) % PC_HISTORY_SIZE
    ensures forall i :: size - PC_HISTORY_SIZE < i < size ==> i % PC_HISTORY_SIZE != size % PC_HISTORY_SIZE
  {
  }

  lemma PreviousSlot(size: nat)
    requires size > 0
    ensures (size - 1) % PC_HISTORY_SIZE
            == if size % PC_HISTORY_SIZE == 0 then PC_HISTORY_SIZE - 1 else size % PC_HISTORY_SIZE - 1
  {
  }

  // The j-th slot that `mostRecent` reads holds just that addition.
  lemma SlotOfResult(size: nat, n: nat, j: nat)
    requires j < Min(n, Min(size, PC_HISTORY_SIZE))
    ensures var head, count := size % PC_HISTORY_SIZE, Min(size, PC_HISTORY_SIZE);
            var start := if count >= n then (head + PC_HISTORY_SIZE - Min(n, count)) % PC_HISTORY_SIZE else 0;
            (start + j) % PC_HISTORY_SIZE == Source(size, n, j) % PC_HISTORY_SIZE
  {
    var turns, head := size / PC_HISTORY_SIZE, size % PC_HISTORY_SIZE;
    assert size == PC_HISTORY_SIZE * turns + head;
    if n <= Min(size, PC_HISTORY_SIZE) {
      if n <= head {
        assert (head + PC_HISTORY_SIZE - n) % PC_HISTORY_SIZE == head - n;
        SameSlot(turns, head - n + j);
      } else {
        assert (head + PC_HISTORY_SIZE - n) % PC_HISTORY_SIZE == head + PC_HISTORY_SIZE - n;
        SameSlot(turns - 1, head + PC_HISTORY_SIZE - n + j);
      }
    } else if size >= PC_HISTORY_SIZE {
      SameSlot(if j < head then turns else turns - 1, j);
    }
  }

  lemma SameSlot(turns: int, x: int)
    ensures (PC_HISTORY_SIZE * turns + x) % PC_HISTORY_SIZE == x % PC_HISTORY_SIZE
  {
  }

  // What is kept reads the same from its newest `head` elements on.
  ghost predicate SameRotated<T>(kept: seq<T>, head: nat)
    requires head <= |kept|
  {
    && (forall j :: 0 <= j < head ==> kept[j] == kept[|kept| - head + j])
    && (forall j :: head <= j < |kept| ==> kept[j] == kept[j - head])
  }

  // `mostRecent` returns the last elements in the order of addition exactly when it is asked for at
  // most a buffer's worth, or the buffer is not full or has just come round to its first slot, or what
  // it holds is not changed by starting from the first slot.
  lemma MostRecentInOrderIff<T>(log: seq<T>, n: nat)
    ensures MostRecentOf(log, n) == Last(log, Min(n, |Kept(log)|))
       <==> n <= PC_HISTORY_SIZE || |log| < PC_HISTORY_SIZE || |log| % PC_HISTORY_SIZE == 0
            || SameRotated(Kept(log), |log| % PC_HISTORY_SIZE)
  {
    if n > PC_HISTORY_SIZE && |log| >= PC_HISTORY_SIZE {
      var head := |log| % PC_HISTORY_SIZE;
      var kept := Kept(log);
      assert Last(log, Min(n, |kept|)) == kept;
      RotatedAt(log, head);
      hide MostRecentOf, Last, Kept;
      RotatedIff(kept, Rotated(log, head), head);
    }
  }

  // The order in which `mostRecent` returns a full buffer asked for too much
  function Rotated<T>(log: seq<T>, head: nat): seq<T>
    requires head <= PC_HISTORY_SIZE <= |log|
  {
    Last(log, head) + Kept(log)[..PC_HISTORY_SIZE - head]
  }

  lemma RotatedAt<T>(log: seq<T>, head: nat)
    requires head <= PC_HISTORY_SIZE <= |log|
    ensures var r, kept := Rotated(log, head), Kept(log);
            && |r| == |kept| == PC_HISTORY_SIZE
            && (forall j :: 0 <= j < head ==> r[j] == kept[PC_HISTORY_SIZE - head + j])
            && (forall j :: head <= j < PC_HISTORY_SIZE ==> r[j] == kept[j - head])
  {
  }

  lemma RotatedIff<T>(kept: seq<T>, r: seq<T>, head: nat)
    requires |r| == |kept| && head <= |kept|
    requires forall j :: 0 <= j < head ==> r[j] == kept[|kept| - head + j]
    requires forall j :: head <= j < |kept| ==> r[j] == kept[j - head]
    ensures r == kept <==> head == 0 || SameRotated(kept, head)
  {
  }

  // With no element kept twice there is no such luck.
  lemma DistinctNeverSame<T>(kept: seq<T>, head: nat)
    requires 0 < head < |kept| && forall i, j :: 0 <= i < j < |kept| ==> kept[i] != kept[j]
    ensures !SameRotated(kept, head)
  {
    assert kept[0] != kept[|kept| - head];
  }

  // 1025 different elements: asked for 1025, `mostRecent` puts the newest first.
  lemma MostRecentCounterexample()
    ensures var log := seq(1025, i => i);
            MostRecentOf(log, 1025)[0] == 1024 && Last(log, Min(1025, |Kept(log)|))[0] == 1
  {
  }
}
