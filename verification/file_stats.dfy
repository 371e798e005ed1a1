/** Block statistics of a file: how the blocks are sized, what a hit does, and its four-bit export. */
module FileStats {

  const MAX_RANGE_COUNT: nat := 1000
  const MIN_RANGE_SHIFT: nat := 14
  const MAX_HITS: nat := 0x8000

  /** `n >> k` */
  function Shr(n: nat, k: nat): nat { if k == 0 then n else Shr(n, k - 1) / 2 }

  /** `n << k` */
  function Shl(n: nat, k: nat): nat
    decreases k
  {
    if k == 0 then n else Shl(2 * n, k - 1)
  }

  lemma {:induction false} ShlGrows(a: nat, b: nat, k: nat)
    requires a <= b
    ensures Shl(a, k) <= Shl(b, k)
    ensures a < b ==> Shl(a, k) < Shl(b, k)
    decreases k
  {
    if k > 0 { ShlGrows(2 * a, 2 * b, k - 1); }
  }

  /** A shift down and up again loses less than one block. */
  lemma {:induction false} ShrThenShl(n: nat, k: nat)
    ensures Shl(Shr(n, k), k) <= n < Shl(Shr(n, k) + 1, k)
  {
    if k > 0 {
      ShrThenShl(n, k - 1);
      var m := Shr(n, k - 1);
      ShlGrows(2 * (m / 2), m, k - 1);
      ShlGrows(m + 1, 2 * (m / 2 + 1), k - 1);
    }
  }

  /** Blocks of one size: how many lie below `n` does not exceed what covers it. */
  lemma BlockOf(n: nat, k: nat, count: nat)
    requires n < Shl(count, k)
    ensures Shr(n, k) < count
  {
    ShrThenShl(n, k);
    if Shr(n, k) >= count { ShlGrows(count, Shr(n, k), k); }
  }

  lemma {:induction false} ShrGrows(a: nat, b: nat, k: nat)
    requires a <= b
    ensures Shr(a, k) <= Shr(b, k)
  {
    if k > 0 { ShrGrows(a, b, k - 1); }
  }

  /** The block size of a file of `n` bytes: the smallest of at least the minimum that leaves no more
      than the maximum of full blocks. */
  ghost predicate GoodShift(n: nat, shift: nat) {
    && MIN_RANGE_SHIFT <= shift && Shr(n, shift) <= MAX_RANGE_COUNT
    && forall k :: MIN_RANGE_SHIFT <= k < shift ==> Shr(n, k) > MAX_RANGE_COUNT
  }

  /** The blocks cover the file, with less than one to spare. */
  ghost predicate Covers(n: nat, shift: nat, count: nat) {
    count > 0 && n <= Shl(count, shift) && (n > 0 ==> Shl(count - 1, shift) < n)
  }

  lemma ShiftIsUnique(n: nat, j: nat, k: nat)
    requires GoodShift(n, j) && GoodShift(n, k)
    ensures j == k
  {
  }

  lemma CountIsUnique(n: nat, shift: nat, a: nat, b: nat)
    requires Covers(n, shift, a) && Covers(n, shift, b) && n > 0
    ensures a == b
  {
    if a < b { ShlGrows(a, b - 1, shift); }
    if b < a { ShlGrows(b, a - 1, shift); }
  }

  datatype Counter = FileReadCold | FileReadAhead | FileReadCached | FileWrite | PageAccess | PageLoad

  /** A number for each counter: the hits of a block, or the bytes of the file. */
  datatype Tally = Tally(fileReadCold: nat, fileReadAhead: nat, fileReadCached: nat,
                         fileWrite: nat, pageAccess: nat, pageLoad: nat)
  {
    function Get(c: Counter): nat {
      match c
      case FileReadCold => fileReadCold
      case FileReadAhead => fileReadAhead
      case FileReadCached => fileReadCached
      case FileWrite => fileWrite
      case PageAccess => pageAccess
      case PageLoad => pageLoad
    }

    function Set(c: Counter, n: nat): (t: Tally)
      ensures forall other :: t.Get(other) == if other == c then n else Get(other)
    {
      match c
      case FileReadCold => this.(fileReadCold := n)
      case FileReadAhead => this.(fileReadAhead := n)
      case FileReadCached => this.(fileReadCached := n)
      case FileWrite => this.(fileWrite := n)
      case PageAccess => this.(pageAccess := n)
      case PageLoad => this.(pageLoad := n)
    }
  }

  const NONE := Tally(0, 0, 0, 0, 0, 0)

  class FileStatisticsCollector {
    var blockShift: nat
    var blockCount: nat
    /** The counters of every block. */
    var hits: array<Tally>
    var active: bool
    /** The bytes. */
    var total: Tally

    ghost predicate Valid()
      reads this, hits
    {
      hits.Length == blockCount && forall i, c :: 0 <= i < hits.Length ==> hits[i].Get(c) <= MAX_HITS
    }

    constructor ()
      ensures Valid() && blockShift == 0 && blockCount == 0 && active && total == NONE
    {
      blockShift, blockCount, active, total := 0, 0, true, NONE;
      hits := new Tally[0];
    }

    /** The size and number of the blocks; the counters start anew only if either changes. */
    method Resize(n: nat)
      requires Valid()
      modifies this
      ensures Valid() && total == old(total) && active == old(active)
      ensures GoodShift(n, blockShift) && Covers(n, blockShift, blockCount) && blockCount <= MAX_RANGE_COUNT + 1
      ensures blockCount == old(blockCount) && blockShift == old(blockShift) ==> hits == old(hits)
      ensures blockCount != old(blockCount) || blockShift != old(blockShift) ==>
        fresh(hits) && forall i :: 0 <= i < hits.Length ==> hits[i] == NONE
    {
      var count := Shr(n, MIN_RANGE_SHIFT);
      if count < 1 { count := 1; }
      var shift := MIN_RANGE_SHIFT;
      while count > MAX_RANGE_COUNT
        invariant shift >= MIN_RANGE_SHIFT && count >= 1
        invariant count == Shr(n, shift) || (shift == MIN_RANGE_SHIFT && count == 1 && Shr(n, shift) == 0)
        invariant forall k :: MIN_RANGE_SHIFT <= k < shift ==> Shr(n, k) > MAX_RANGE_COUNT
        decreases count
      {
        count := count / 2;
        shift := shift + 1;
      }
      SizeCovers(n, shift, count);
      if Shl(count, shift) < n { count := count + 1; }
      if count == blockCount && shift == blockShift { return; }
      hits := new Tally[count](_ => NONE);
      blockShift := shift;
      blockCount := count;
    }

    /** A read, write or access of a range, if the collector is active: every block that it touches
        counts it, up to the limit, and nothing else is counted. */
    method BumpCounter(offset: nat, length: nat, counter: Counter)
      requires Valid() && (active ==> offset + AtLeastOne(length) <= Shl(blockCount, blockShift))
      modifies this`total, hits
      ensures Valid() && hits == old(hits)
      ensures total == if active then old(total).Set(counter, old(total).Get(counter) + length) else old(total)
      ensures active ==> Shr(offset + AtLeastOne(length) - 1, blockShift) < blockCount
      ensures forall i, c :: 0 <= i < hits.Length ==>
        hits[i].Get(c) == Counted(old(hits[i]).Get(c), active && c == counter && Touches(offset, length, i))
    {
      if !active { return; }
      var first, last := Shr(offset, blockShift), Shr(offset + AtLeastOne(length) - 1, blockShift);
      ShrGrows(offset, offset + AtLeastOne(length) - 1, blockShift);
      BlockOf(offset + AtLeastOne(length) - 1, blockShift, blockCount);
      for i := first to last + 1
        invariant total == old(total) && hits == old(hits)
        invariant forall k, c :: 0 <= k < hits.Length ==>
          hits[k].Get(c) == Counted(old(hits[k]).Get(c), c == counter && first <= k < i)
      {
        var hit := hits[i].Get(counter);
        hits[i] := hits[i].Set(counter, hit + 1);
        if hit + 1 > MAX_HITS { hits[i] := hits[i].Set(counter, MAX_HITS); }
      }
      total := total.Set(counter, total.Get(counter) + length);
    }

    /** Some byte of the range, or its first position, lies in block `i`. */
    predicate Touches(offset: nat, length: nat, i: nat)
      reads this
    {
      Shr(offset, blockShift) <= i <= Shr(offset + AtLeastOne(length) - 1, blockShift)
    }
  }

  /** A counter counts once more if it is hit, and stays at the limit. */
  function Counted(hits: nat, hit: bool): nat { if hit && hits < MAX_HITS then hits + 1 else hits }

  function AtLeastOne(length: nat): (n: nat)
    ensures n > 0
  {
    if length > 1 then length else 1
  }

  lemma SizeCovers(n: nat, shift: nat, count: nat)
    requires count >= 1 && (count == Shr(n, shift) || (count == 1 && Shr(n, shift) == 0))
    ensures var c := if Shl(count, shift) < n then count + 1 else count; Covers(n, shift, c)
  {
    ShrThenShl(n, shift);
    if count == Shr(n, shift) {
      ShlGrows(count - 1, count, shift);
    } else {
      ShlIsZero(shift);
    }
  }

  lemma {:induction false} ShlIsZero(k: nat)
    ensures Shl(0, k) == 0
  {
    if k > 0 { ShlIsZero(k - 1); }
  }

  /** `as_nibble`: the export of a counter is the logarithm of one more than it, up to fifteen. */
  method AsNibble(hits: nat) returns (nibble: nat)
    ensures nibble < 16 && hits + 1 >= Shl(1, nibble)
    ensures nibble < 15 ==> hits + 1 < Shl(1, nibble + 1)
  {
    nibble := 0;
    var value := 0;
    while value < 16
      invariant value <= 16 && (value > 0 ==> nibble == value - 1) && (value == 0 ==> nibble == 0)
      invariant hits + 1 >= Shl(1, nibble)
    {
      if hits + 1 < Shl(1, value) { break; }
      nibble := value;
      value := value + 1;
    }
  }
}
