/** The run coalescer of `ParseFragments.parseProperty`: the loop that pulls
    small-block numbers from a Mini FAT chain and groups consecutive ones
    (`block == previous + 1`) into runs.

    The loop is modelled as a left fold: `Step` is one pass of the loop body
    for one block, `Scan` folds it over a prefix of the chain, and `Coalesce`
    adds the run that is emitted when the chain is exhausted.  The cursors
    `first` and `previous` start out as Python's `None`; the tests `not first`
    and `previous and ...` use Python truthiness, so a cursor holding block 0
    counts as unset exactly like `None` (see `Truthy`). */
module RunCoalescer {

  datatype Option<T> = None | Some(value: T)

  /** Python truthiness of a block cursor: `None` and block 0 are false. */
  predicate Truthy(o: Option<nat>) {
    o.Some? && o.value != 0
  }

  /** One emitted run: the description's `first..previous` and the `size`
      (in bits) handed to the field constructor. */
  datatype Run = Run(first: nat, last: nat, size: nat)

  /** The count printed in a run's description, `previous - first + 1`. */
  function BlockCount(r: Run): int {
    r.last - r.first + 1
  }

  predicate Ordered(runs: seq<Run>) {
    forall k :: 0 <= k < |runs| ==> runs[k].first <= runs[k].last
  }

  /** The loop's variables after some blocks were pulled: the runs emitted so
      far, the two cursors and the accumulated size of the open run. */
  datatype ScanState = ScanState(emitted: seq<Run>, first: Option<nat>, previous: Option<nat>, size: nat)

  const Start: ScanState := ScanState([], None, None, 0)

  /** Shape of the loop state once a block has been pulled: both cursors are
      set, `first <= previous`, and a cursor at block 0 means both are 0. */
  predicate Started(st: ScanState) {
    && st.first.Some? && st.previous.Some?
    && st.first.value <= st.previous.value
    && (st.first.value == 0 ==> st.previous.value == 0)
  }

  /** One iteration of the loop body for a pulled `block`.  If `first` is
      unset the block becomes `first`; the block extends the open run when
      `first` was unset or it follows a set `previous`; otherwise the open run
      is emitted and a new one starts at `block` with size `sectorSize`. */
  function Step(st: ScanState, block: nat, ssSize: nat, sectorSize: nat): (r: ScanState)
    requires st == Start || Started(st)
    ensures Started(r) && r.previous == Some(block)
    ensures Ordered(st.emitted) ==> Ordered(r.emitted)
  {
    var firstUnset := !Truthy(st.first);
    var contiguous := firstUnset || (Truthy(st.previous) && block == st.previous.value + 1);
    if contiguous then
      ScanState(st.emitted, if firstUnset then Some(block) else st.first, Some(block), st.size + ssSize)
    else
      ScanState(st.emitted + [Run(st.first.value, st.previous.value, st.size)], Some(block), Some(block), sectorSize)
  }

  /** The loop state after pulling every block of `chain`. */
  function Scan(chain: seq<nat>, ssSize: nat, sectorSize: nat): (st: ScanState)
    ensures chain == [] ==> st == Start
    ensures chain != [] ==> Started(st) && st.previous.value == chain[|chain| - 1]
    ensures Ordered(st.emitted)
  {
    if chain == [] then Start
    else Step(Scan(chain[..|chain| - 1], ssSize, sectorSize), chain[|chain| - 1], ssSize, sectorSize)
  }

  /** Every run the loop emits for a non-empty chain, in emission order: the
      runs emitted on a break, then the open run emitted on exhaustion. */
  function Coalesce(chain: seq<nat>, ssSize: nat, sectorSize: nat): (runs: seq<Run>)
    requires chain != []
    ensures |runs| >= 1 && Ordered(runs)
    ensures runs[|runs| - 1].last == chain[|chain| - 1]
  {
    var st := Scan(chain, ssSize, sectorSize);
    st.emitted + [Run(st.first.value, st.previous.value, st.size)]
  }

  // ---------------------------------------------------------------------
  // Reference definitions used to state what the coalescer computes

  /** The blocks `a, a+1, ..., b`. */
  function Range(a: nat, b: nat): (s: seq<nat>)
    ensures a <= b ==> |s| == b - a + 1 && s[0] == a
    decreases b - a
  {
    if b < a then [] else if b == a then [a] else Range(a, b - 1) + [b]
  }

  /** The blocks the runs describe, `first..last` of each run in order. */
  function Flatten(runs: seq<Run>): seq<nat> {
    if runs == [] then []
    else Flatten(runs[..|runs| - 1]) + Range(runs[|runs| - 1].first, runs[|runs| - 1].last)
  }

  /** `s` without its zero blocks. */
  function DropZeros(s: seq<nat>): seq<nat> {
    if s == [] then []
    else DropZeros(s[..|s| - 1]) + (if s[|s| - 1] == 0 then [] else [s[|s| - 1]])
  }

  predicate ZeroFree(s: seq<nat>) {
    forall k :: 0 <= k < |s| ==> s[k] != 0
  }

  /** Every block follows its predecessor. */
  predicate Contiguous(s: seq<nat>) {
    forall k :: 0 <= k < |s| - 1 ==> s[k + 1] == s[k] + 1
  }

  /** The number of positions where the loop closes a run: the previous block
      is set (non-zero) and the next block does not follow it. */
  function Breaks(s: seq<nat>): nat {
    if |s| <= 1 then 0
    else Breaks(s[..|s| - 1]) + (if s[|s| - 2] != 0 && s[|s| - 1] != s[|s| - 2] + 1 then 1 else 0)
  }

  /** The size law of a run: the first run accumulates `ssSize` per block,
      a later run starts from `sectorSize` and adds `ssSize` per further block. */
  predicate SizeLaw(r: Run, isFirstRun: bool, ssSize: nat, sectorSize: nat) {
    r.size == if isFirstRun then BlockCount(r) * ssSize else sectorSize + (BlockCount(r) - 1) * ssSize
  }

  // ---------------------------------------------------------------------
  // Small facts about the reference definitions

  lemma RangeSnoc(a: nat, b: nat)
    requires a <= b
    ensures Range(a, b + 1) == Range(a, b) + [b + 1]
  {
  }

  lemma SnocPrefix<T>(s: seq<T>, x: T)
    ensures (s + [x])[..|s|] == s
  {
  }

  lemma {:induction false} DropZerosOfZeroFree(s: seq<nat>)
    requires ZeroFree(s)
    ensures DropZeros(s) == s
  {
    if s != [] {
      DropZerosOfZeroFree(s[..|s| - 1]);
      assert s[..|s| - 1] + [s[|s| - 1]] == s;
    }
  }

  // ---------------------------------------------------------------------
  // Invariants of the fold

  /** The emitted runs followed by the open run describe the chain, except
      that every block 0 before the last block is lost (it is overwritten as
      `first` by the block after it). */
  lemma {:induction false} ScanCovers(chain: seq<nat>, ssSize: nat, sectorSize: nat)
    requires chain != []
    ensures var st := Scan(chain, ssSize, sectorSize);
      Flatten(st.emitted) + Range(st.first.value, st.previous.value)
        == DropZeros(chain[..|chain| - 1]) + [chain[|chain| - 1]]
  {
    var n := |chain|;
    var b := chain[n - 1];
    var s := chain[..n - 1];
    assert Scan(chain, ssSize, sectorSize) == Step(Scan(s, ssSize, sectorSize), b, ssSize, sectorSize);
    if n == 1 {
      assert Range(b, b) == [b];
    } else {
      ScanCovers(s, ssSize, sectorSize);
      CoversStep(Scan(s, ssSize, sectorSize), s, b, ssSize, sectorSize);
    }
  }

  /** One loop iteration keeps the covering invariant of `ScanCovers`. */
  lemma CoversStep(st: ScanState, s: seq<nat>, b: nat, ssSize: nat, sectorSize: nat)
    requires s != [] && Started(st) && st.previous.value == s[|s| - 1]
    requires Flatten(st.emitted) + Range(st.first.value, st.previous.value) == DropZeros(s[..|s| - 1]) + [s[|s| - 1]]
    ensures var r := Step(st, b, ssSize, sectorSize);
      Flatten(r.emitted) + Range(r.first.value, r.previous.value) == DropZeros(s) + [b]
  {
    var f, p := st.first.value, st.previous.value;
    var d := DropZeros(s[..|s| - 1]);
    StepCases(st, b, ssSize, sectorSize);
    if f == 0 {
      assert DropZeros(s) == d;
      CoversAfterZero(Flatten(st.emitted), d, b);
    } else {
      assert DropZeros(s) == d + [p];
      if b == p + 1 {
        CoversExtend(st.emitted, f, p, b, d + [p]);
        assert Step(st, b, ssSize, sectorSize) == ScanState(st.emitted, st.first, Some(b), st.size + ssSize);
      } else {
        CoversBreak(st.emitted, Run(f, p, st.size), b, d + [p]);
      }
    }
  }

  /** The three outcomes of a loop iteration once a block has been pulled. */
  lemma StepCases(st: ScanState, b: nat, ssSize: nat, sectorSize: nat)
    requires Started(st)
    ensures var f, p := st.first.value, st.previous.value;
      Step(st, b, ssSize, sectorSize) ==
        if f == 0 then ScanState(st.emitted, Some(b), Some(b), st.size + ssSize)
        else if b == p + 1 then ScanState(st.emitted, st.first, Some(b), st.size + ssSize)
        else ScanState(st.emitted + [Run(f, p, st.size)], Some(b), Some(b), sectorSize)
  {
  }

  /** A block that follows `previous` extends the open run. */
  lemma CoversExtend(em: seq<Run>, f: nat, p: nat, b: nat, z: seq<nat>)
    requires f <= p && b == p + 1 && Flatten(em) + Range(f, p) == z
    ensures Flatten(em) + Range(f, b) == z + [b]
  {
    RangeSnoc(f, p);
  }

  /** A block that breaks the run closes it and opens a run of its own. */
  lemma CoversBreak(em: seq<Run>, run: Run, b: nat, z: seq<nat>)
    requires Flatten(em) + Range(run.first, run.last) == z
    ensures Flatten(em + [run]) + Range(b, b) == z + [b]
  {
    SnocPrefix(em, run);
    assert Flatten(em + [run]) == Flatten(em) + Range(run.first, run.last);
  }

  /** The open run at block 0 is replaced by the next block. */
  lemma CoversAfterZero(x: seq<nat>, d: seq<nat>, b: nat)
    requires x + Range(0, 0) == d + [0]
    ensures x + Range(b, b) == d + [b]
  {
    assert Range(0, 0) == [0] && Range(b, b) == [b];
    calc {
      x;
      (x + [0])[..|x|];
      (d + [0])[..|x|];
      d;
    }
  }

  /** A run is emitted exactly at the breaks of the chain. */
  lemma {:induction false} ScanCount(chain: seq<nat>, ssSize: nat, sectorSize: nat)
    ensures |Scan(chain, ssSize, sectorSize).emitted| == Breaks(chain)
  {
    if |chain| > 1 {
      ScanCount(chain[..|chain| - 1], ssSize, sectorSize);
      var s := chain[..|chain| - 1];
      assert s[|s| - 1] == chain[|chain| - 2];
    }
  }

  /** For a chain without block 0, no emitted run is followed by a run (or an
      open run) that starts right after it. */
  lemma {:induction false} ScanMaximal(chain: seq<nat>, ssSize: nat, sectorSize: nat)
    requires ZeroFree(chain)
    ensures var st := Scan(chain, ssSize, sectorSize);
      && (forall k :: 0 < k < |st.emitted| ==> st.emitted[k].first != st.emitted[k - 1].last + 1)
      && (chain != [] && st.emitted != [] ==> st.first.value != st.emitted[|st.emitted| - 1].last + 1)
  {
    if chain != [] {
      var s := chain[..|chain| - 1];
      assert ZeroFree(s) by {
        forall k | 0 <= k < |s| ensures s[k] != 0 { assert s[k] == chain[k]; }
      }
      ScanMaximal(s, ssSize, sectorSize);
    }
  }

  /** For a chain without block 0, the emitted runs obey the size law and the
      open run's size is that of a first or a later run. */
  lemma {:induction false} ScanSizes(chain: seq<nat>, ssSize: nat, sectorSize: nat)
    requires ZeroFree(chain)
    ensures var st := Scan(chain, ssSize, sectorSize);
      && (forall k :: 0 <= k < |st.emitted| ==> SizeLaw(st.emitted[k], k == 0, ssSize, sectorSize))
      && (chain != [] ==> SizeLaw(Run(st.first.value, st.previous.value, st.size), st.emitted == [], ssSize, sectorSize))
  {
    if chain != [] {
      var s := chain[..|chain| - 1];
      assert ZeroFree(s) by {
        forall k | 0 <= k < |s| ensures s[k] != 0 { assert s[k] == chain[k]; }
      }
      ScanSizes(s, ssSize, sectorSize);
      var st := Scan(s, ssSize, sectorSize);
      if s != [] {
        var f, p := st.first.value, st.previous.value;
        var b := chain[|chain| - 1];
        if b == p + 1 {
          assert (b - f + 1) * ssSize == (p - f + 1) * ssSize + ssSize;
          assert (b - f) * ssSize == (p - f) * ssSize + ssSize;
        }
      }
    }
  }

  // ---------------------------------------------------------------------
  // Properties of the coalescer

  /** Concatenating the runs' `first..last` ranges gives the chain with every
      block 0 dropped except a final one. */
  lemma CoalesceCovers(chain: seq<nat>, ssSize: nat, sectorSize: nat)
    requires chain != []
    ensures Flatten(Coalesce(chain, ssSize, sectorSize)) == DropZeros(chain[..|chain| - 1]) + [chain[|chain| - 1]]
  {
    var st := Scan(chain, ssSize, sectorSize);
    ScanCovers(chain, ssSize, sectorSize);
    SnocPrefix(st.emitted, Run(st.first.value, st.previous.value, st.size));
  }

  /** For a chain without block 0 the runs reproduce the chain exactly. */
  lemma CoalesceReassembles(chain: seq<nat>, ssSize: nat, sectorSize: nat)
    requires chain != [] && ZeroFree(chain)
    ensures Flatten(Coalesce(chain, ssSize, sectorSize)) == chain
  {
    CoalesceCovers(chain, ssSize, sectorSize);
    var s := chain[..|chain| - 1];
    assert ZeroFree(s) by {
      forall k | 0 <= k < |s| ensures s[k] != 0 { assert s[k] == chain[k]; }
    }
    DropZerosOfZeroFree(s);
    assert s + [chain[|chain| - 1]] == chain;
  }

  /** One run per break, plus the run emitted on exhaustion. */
  lemma CoalesceCount(chain: seq<nat>, ssSize: nat, sectorSize: nat)
    requires chain != []
    ensures |Coalesce(chain, ssSize, sectorSize)| == Breaks(chain) + 1
  {
    ScanCount(chain, ssSize, sectorSize);
  }

  lemma {:induction false} ContiguousHasNoBreaks(s: seq<nat>)
    requires Contiguous(s)
    ensures Breaks(s) == 0
  {
    if |s| > 1 {
      var t := s[..|s| - 1];
      assert Contiguous(t) by {
        forall k | 0 <= k < |t| - 1 ensures t[k + 1] == t[k] + 1 { assert t[k + 1] == s[k + 1]; }
      }
      ContiguousHasNoBreaks(t);
      assert s[|s| - 1] == s[|s| - 2] + 1;
    }
  }

  /** Runs are maximal: for a chain without block 0, no run starts at the
      block right after the previous run's last block. */
  lemma CoalesceMaximal(chain: seq<nat>, ssSize: nat, sectorSize: nat)
    requires chain != [] && ZeroFree(chain)
    ensures var runs := Coalesce(chain, ssSize, sectorSize);
      forall k :: 0 < k < |runs| ==> runs[k].first != runs[k - 1].last + 1
  {
    ScanMaximal(chain, ssSize, sectorSize);
  }

  /** For a chain without block 0, the first run's size is its block count
      times `ssSize`; every later run starts from `sectorSize`. */
  lemma CoalesceSizes(chain: seq<nat>, ssSize: nat, sectorSize: nat)
    requires chain != [] && ZeroFree(chain)
    ensures var runs := Coalesce(chain, ssSize, sectorSize);
      forall k :: 0 <= k < |runs| ==> SizeLaw(runs[k], k == 0, ssSize, sectorSize)
  {
    ScanSizes(chain, ssSize, sectorSize);
  }

  /** A contiguous chain starting at a non-zero block gives exactly one run,
      spanning the whole chain, of `|chain| * ssSize` bits. */
  lemma CoalesceContiguous(chain: seq<nat>, ssSize: nat, sectorSize: nat)
    requires chain != [] && Contiguous(chain) && chain[0] != 0
    ensures Coalesce(chain, ssSize, sectorSize) == [Run(chain[0], chain[|chain| - 1], |chain| * ssSize)]
  {
    assert ZeroFree(chain) by {
      forall k | 0 <= k < |chain| ensures chain[k] == chain[0] + k {
        var j := 0;
        while j < k
          invariant j <= k && chain[j] == chain[0] + j
        {
          j := j + 1;
        }
      }
    }
    ContiguousHasNoBreaks(chain);
    CoalesceCount(chain, ssSize, sectorSize);
    CoalesceReassembles(chain, ssSize, sectorSize);
    CoalesceSizes(chain, ssSize, sectorSize);
    var runs := Coalesce(chain, ssSize, sectorSize);
    assert runs[..0] == [];
    assert Flatten(runs) == Range(runs[0].first, runs[0].last);
    assert Range(runs[0].first, runs[0].last)[0] == chain[0];
  }

  /** A leading block 0 is taken for "unset": it is replaced by the next block
      and only its size is kept. */
  lemma LeadingZeroIsOverwritten(ssSize: nat, sectorSize: nat)
    ensures Coalesce([0, 5], ssSize, sectorSize) == [Run(5, 5, 2 * ssSize)]
  {
    assert [0, 5][..1] == [0];
    assert [0][..0] == [];
    var st0 := Scan([0], ssSize, sectorSize);
    assert st0 == ScanState([], Some(0), Some(0), ssSize);
    assert Scan([0, 5], ssSize, sectorSize) == ScanState([], Some(5), Some(5), 2 * ssSize);
  }

  /** A block 0 inside the chain separates two runs that are contiguous with
      each other. */
  lemma InnerZeroSplitsContiguousRuns(ssSize: nat, sectorSize: nat)
    ensures Coalesce([3, 0, 4], ssSize, sectorSize) == [Run(3, 3, ssSize), Run(4, 4, sectorSize + ssSize)]
  {
    assert [3, 0, 4][..2] == [3, 0];
    assert [3, 0][..1] == [3];
    assert [3][..0] == [];
    assert Scan([3], ssSize, sectorSize) == ScanState([], Some(3), Some(3), ssSize);
    assert Scan([3, 0], ssSize, sectorSize) == ScanState([Run(3, 3, ssSize)], Some(0), Some(0), sectorSize);
    assert Scan([3, 0, 4], ssSize, sectorSize) == ScanState([Run(3, 3, ssSize)], Some(4), Some(4), sectorSize + ssSize);
  }
}
