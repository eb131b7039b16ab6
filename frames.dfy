/**
 * `grow_stack` and `shrink_stack`: shifting every occupied cell of the frame
 * by `n` before the frame base itself moves, so that each local keeps its
 * offset in the new frame.
 */
module Frames {
  import opened Wrappers
  import opened PatternMatch
  import opened Codegen
  import opened Allocator
  import opened BuiltinCode
  import opened Builtins

  /** Python's `reversed`. */
  function Reverse(xs: seq<int>): seq<int>
  {
    if xs == [] then [] else [xs[|xs| - 1]] + Reverse(xs[..|xs| - 1])
  }

  lemma {:induction false} ReverseIndex(xs: seq<int>)
    ensures |Reverse(xs)| == |xs|
    ensures forall i :: 0 <= i < |xs| ==> Reverse(xs)[i] == xs[|xs| - 1 - i]
    decreases |xs|
  {
    if xs != [] {
      ReverseIndex(xs[..|xs| - 1]);
    }
  }

  /** `move(x, x + k)`. */
  function ShiftResult(n: int, sp: int, bf: int, x: int, k: int): Result<Emitted>
  {
    MoveResult(n, sp, bf, AddressOf(x), AddressOf(x + k))
  }

  /** `move(x, x + k)` for each offset of `xs`, in list order. */
  function MovesResult(n: int, sp: int, bf: int, xs: seq<int>, k: int): Result<Emitted>
    decreases |xs|
  {
    if xs == [] then Ok(Emitted([], bf))
    else
      var r1 :- MovesResult(n, sp, bf, xs[..|xs| - 1], k);
      After(r1, ShiftResult(n, sp, r1.bf, xs[|xs| - 1], k))
  }

  /** `clear(x)` for `x` in `range(count)`. */
  function ClearsResult(n: int, sp: int, bf: int, count: nat): Result<Emitted>
  {
    if count == 0 then Ok(Emitted([], bf))
    else
      var r1 :- ClearsResult(n, sp, bf, count - 1);
      After(r1, ClearResult(n, sp, r1.bf, AddressOf(count - 1)))
  }

  /** The size argument: a constant, and not negative. */
  function FrameSize(size: Value): Result<nat>
  {
    if !IsConstant(size) then Err(Malformed)
    else if MatchConstant(size).value < 0 then Err(NegativeCount)
    else Ok(MatchConstant(size).value)
  }

  /**
   * `grow_stack`: nothing at size 0; otherwise every occupied offset, highest
   * first, moves up by the size, and the cells below the old size are cleared.
   */
  ghost function GrowResult(n: int, sp: int, bf: int, cells: set<int>, size: Value): Result<Emitted>
  {
    var k :- FrameSize(size);
    if k == 0 then Ok(Emitted([], bf))
    else
      var mv :- MovesResult(n, sp, bf, Reverse(SortedOf(cells)), k);
      var cl :- ClearsResult(n, sp, mv.bf, k);
      Ok(Emitted(mv.pieces + cl.pieces, cl.bf))
  }

  /** `shrink_stack`: nothing at size 0; otherwise every occupied offset, lowest first, moves down by the size. */
  ghost function ShrinkResult(n: int, sp: int, bf: int, cells: set<int>, size: Value): Result<Emitted>
  {
    var k :- FrameSize(size);
    if k == 0 then Ok(Emitted([], bf))
    else MovesResult(n, sp, bf, SortedOf(cells), -(k as int))
  }

  // ---------------------------------------------------------------------------
  // The order of the moves

  /**
   * Growing by a positive size moves the highest cell first, so no move's
   * destination is a cell still waiting to be moved.
   */
  lemma {:induction false} GrowOrderSafe(cells: set<int>, k: int)
    requires k > 0
    ensures forall i, j :: 0 <= i < j < |Reverse(SortedOf(cells))| ==>
      Reverse(SortedOf(cells))[i] + k != Reverse(SortedOf(cells))[j]
  {
    var xs := SortedOf(cells);
    SortedOfIncreasing(cells);
    ReverseIndex(xs);
    forall i, j | 0 <= i < j < |Reverse(xs)| ensures Reverse(xs)[i] + k != Reverse(xs)[j] {
      assert Reverse(xs)[j] == xs[|xs| - 1 - j] < xs[|xs| - 1 - i] == Reverse(xs)[i];
    }
  }

  /** Shrinking moves the lowest cell first, so no destination is a cell still waiting to be moved. */
  lemma {:induction false} ShrinkOrderSafe(cells: set<int>, k: int)
    requires k > 0
    ensures forall i, j :: 0 <= i < j < |SortedOf(cells)| ==> SortedOf(cells)[i] - k != SortedOf(cells)[j]
  {
    SortedOfIncreasing(cells);
  }

  // ---------------------------------------------------------------------------
  // A failing step fails the whole run

  lemma {:induction false} MovesStep(n: int, sp: int, bf: int, xs: seq<int>, k: int, i: nat)
    requires i < |xs| && MovesResult(n, sp, bf, xs[..i], k).Ok?
    ensures MovesResult(n, sp, bf, xs[..i + 1], k) ==
      After(MovesResult(n, sp, bf, xs[..i], k).value, ShiftResult(n, sp, MovesResult(n, sp, bf, xs[..i], k).value.bf, xs[i], k))
  {
    assert xs[..i + 1][..i] == xs[..i];
  }

  lemma {:induction false} MovesPrefixErr(n: int, sp: int, bf: int, xs: seq<int>, k: int, i: nat)
    requires i <= |xs| && MovesResult(n, sp, bf, xs[..i], k).Err?
    ensures MovesResult(n, sp, bf, xs, k) == MovesResult(n, sp, bf, xs[..i], k)
    decreases |xs| - i
  {
    if i < |xs| {
      assert xs[..i + 1][..i] == xs[..i];
      MovesPrefixErr(n, sp, bf, xs, k, i + 1);
    } else {
      assert xs[..i] == xs;
    }
  }

  lemma {:induction false} ClearsPrefixErr(n: int, sp: int, bf: int, count: nat, x: nat)
    requires x <= count && ClearsResult(n, sp, bf, x).Err?
    ensures ClearsResult(n, sp, bf, count) == ClearsResult(n, sp, bf, x)
    decreases count - x
  {
    if x < count {
      ClearsPrefixErr(n, sp, bf, count, x + 1);
    }
  }

  // ---------------------------------------------------------------------------
  // What the moves and clears emit

  lemma {:induction false} MovesEmits(n: int, sp: int, bf: int, xs: seq<int>, k: int)
    requires MovesResult(n, sp, bf, xs, k).Ok?
    ensures Emittable(MovesResult(n, sp, bf, xs, k).value.pieces)
    decreases |xs|
  {
    if xs == [] {
      PlainEmittable([]);
    } else {
      var r1 := MovesResult(n, sp, bf, xs[..|xs| - 1], k).value;
      var x := xs[|xs| - 1];
      MovesEmits(n, sp, bf, xs[..|xs| - 1], k);
      MoveEmits(n, sp, r1.bf, AddressOf(x), AddressOf(x + k));
      EmittableAppend(r1.pieces, ShiftResult(n, sp, r1.bf, x, k).value.pieces);
    }
  }

  lemma {:induction false} ClearsEmits(n: int, sp: int, bf: int, count: nat)
    requires ClearsResult(n, sp, bf, count).Ok?
    ensures Emittable(ClearsResult(n, sp, bf, count).value.pieces)
    decreases count
  {
    if count == 0 {
      PlainEmittable([]);
    } else {
      var r1 := ClearsResult(n, sp, bf, count - 1).value;
      ClearsEmits(n, sp, bf, count - 1);
      ClearEmits(n, sp, r1.bf, AddressOf(count - 1));
      EmittableAppend(r1.pieces, ClearResult(n, sp, r1.bf, AddressOf(count - 1)).value.pieces);
    }
  }

  lemma {:induction false} GrowEmits(n: int, sp: int, bf: int, cells: set<int>, size: Value)
    requires GrowResult(n, sp, bf, cells, size).Ok?
    ensures Emittable(GrowResult(n, sp, bf, cells, size).value.pieces)
  {
    var k := FrameSize(size).value;
    if k == 0 {
      PlainEmittable([]);
    } else {
      var mv := MovesResult(n, sp, bf, Reverse(SortedOf(cells)), k).value;
      MovesEmits(n, sp, bf, Reverse(SortedOf(cells)), k);
      ClearsEmits(n, sp, mv.bf, k);
      EmittableAppend(mv.pieces, ClearsResult(n, sp, mv.bf, k).value.pieces);
    }
  }

  lemma {:induction false} ShrinkEmits(n: int, sp: int, bf: int, cells: set<int>, size: Value)
    requires ShrinkResult(n, sp, bf, cells, size).Ok?
    ensures Emittable(ShrinkResult(n, sp, bf, cells, size).value.pieces)
  {
    if FrameSize(size).value == 0 {
      PlainEmittable([]);
    } else {
      MovesEmits(n, sp, bf, SortedOf(cells), -(FrameSize(size).value as int));
    }
  }

  /** A zero size emits nothing and leaves the data pointer where it was. */
  lemma {:induction false} ZeroSizeNoOp(n: int, sp: int, bf: int, cells: set<int>)
    ensures GrowResult(n, sp, bf, cells, MakeConstant(0)) == Ok(Emitted([], bf))
    ensures ShrinkResult(n, sp, bf, cells, MakeConstant(0)) == Ok(Emitted([], bf))
  {
  }

  /** A negative or non-constant size is refused before anything is emitted. */
  lemma {:induction false} BadSizeRefused(n: int, sp: int, bf: int, cells: set<int>, size: Value)
    requires FrameSize(size).Err?
    ensures GrowResult(n, sp, bf, cells, size) == Err(FrameSize(size).error)
    ensures ShrinkResult(n, sp, bf, cells, size) == Err(FrameSize(size).error)
    ensures FrameSize(size).error == (if IsConstant(size) then NegativeCount else Malformed)
  {
  }

  // ---------------------------------------------------------------------------
  // The methods

  /** The `for x in ...: move(x, x + k)` loops. */
  method MoveEach(m: Machine, xs: seq<int>, k: int) returns (o: Outcome)
    modifies m
    ensures Performs(o, MovesResult(m.nCells, old(m.stackPtr), old(m.bfPtr), xs, k), old(m.code), m.code, m.bfPtr)
    ensures m.stackPtr == old(m.stackPtr)
    ensures o.Pass? ==> m.loopStack == old(m.loopStack)
  {
    ghost var n, sp, bf0, c0 := m.nCells, m.stackPtr, m.bfPtr, m.code;
    o := Pass;
    var i := 0;
    while i < |xs|
      invariant 0 <= i <= |xs|
      invariant MovesResult(n, sp, bf0, xs[..i], k).Ok?
      invariant m.code == c0 + MovesResult(n, sp, bf0, xs[..i], k).value.pieces
      invariant m.bfPtr == MovesResult(n, sp, bf0, xs[..i], k).value.bf
      invariant m.stackPtr == sp && m.loopStack == old(m.loopStack) && o == Pass
    {
      ghost var c1, r1 := m.code, MovesResult(n, sp, bf0, xs[..i], k).value;
      MovesStep(n, sp, bf0, xs, k, i);
      o := MoveValue(m, AddressOf(xs[i]), AddressOf(xs[i] + k));
      ghost var r2 := ShiftResult(n, sp, r1.bf, xs[i], k);
      if o.Fail? {
        assert MovesResult(n, sp, bf0, xs[..i + 1], k) == Err(r2.error);
        MovesPrefixErr(n, sp, bf0, xs, k, i + 1);
        return;
      }
      Chain2(c0, c1, m.code, r1.pieces, r2.value.pieces);
      i := i + 1;
    }
    assert xs[..i] == xs;
  }

  /** The `for x in range(count): clear(x)` loop. */
  method ClearEach(m: Machine, count: nat) returns (o: Outcome)
    modifies m
    ensures Performs(o, ClearsResult(m.nCells, old(m.stackPtr), old(m.bfPtr), count), old(m.code), m.code, m.bfPtr)
    ensures m.stackPtr == old(m.stackPtr)
    ensures o.Pass? ==> m.loopStack == old(m.loopStack)
  {
    ghost var n, sp, bf0, c0 := m.nCells, m.stackPtr, m.bfPtr, m.code;
    o := Pass;
    var x := 0;
    while x < count
      invariant 0 <= x <= count
      invariant ClearsResult(n, sp, bf0, x).Ok?
      invariant m.code == c0 + ClearsResult(n, sp, bf0, x).value.pieces
      invariant m.bfPtr == ClearsResult(n, sp, bf0, x).value.bf
      invariant m.stackPtr == sp && m.loopStack == old(m.loopStack) && o == Pass
    {
      ghost var c1, r1 := m.code, ClearsResult(n, sp, bf0, x).value;
      o := Clear(m, AddressOf(x));
      ghost var r2 := ClearResult(n, sp, r1.bf, AddressOf(x));
      if o.Fail? {
        assert ClearsResult(n, sp, bf0, x + 1) == Err(r2.error);
        ClearsPrefixErr(n, sp, bf0, count, x + 1);
        return;
      }
      Chain2(c0, c1, m.code, r1.pieces, r2.value.pieces);
      x := x + 1;
    }
  }

  /** `grow_stack(size)`. */
  method GrowStack(m: Machine, sm: StackMan, size: Value) returns (o: Outcome)
    modifies m
    ensures Performs(o, GrowResult(m.nCells, old(m.stackPtr), old(m.bfPtr), sm.cells, size), old(m.code), m.code, m.bfPtr)
    ensures o.Pass? ==> m.stackPtr == old(m.stackPtr) + FrameSize(size).value && m.loopStack == old(m.loopStack)
  {
    var fs := FrameSize(size);
    if fs.Err? {
      return Fail(fs.error);
    }
    var k := fs.value;
    if k == 0 {
      return Pass;
    }
    var offsets := sm.AllocatedCells();
    ghost var c0 := m.code;
    o := MoveEach(m, Reverse(offsets), k);
    if o.Fail? {
      return;
    }
    ghost var c1 := m.code;
    o := ClearEach(m, k);
    if o.Fail? {
      return;
    }
    Chain2(c0, c1, m.code, c1[|c0|..], m.code[|c1|..]);
    m.stackPtr := m.stackPtr + k;
  }

  /** A shrink by a positive size is the moves of the occupied offsets, lowest first. */
  lemma {:induction false} ShrinkMoves(n: int, sp: int, bf: int, cells: set<int>, size: Value, k: nat, offsets: seq<int>)
    requires FrameSize(size) == Ok(k) && k != 0 && offsets == SortedOf(cells)
    ensures ShrinkResult(n, sp, bf, cells, size) == MovesResult(n, sp, bf, offsets, -(k as int))
  {
  }

  /** `shrink_stack(size)`. */
  method ShrinkStack(m: Machine, sm: StackMan, size: Value) returns (o: Outcome)
    modifies m
    ensures Performs(o, ShrinkResult(m.nCells, old(m.stackPtr), old(m.bfPtr), sm.cells, size), old(m.code), m.code, m.bfPtr)
    ensures o.Pass? ==> m.stackPtr == old(m.stackPtr) - FrameSize(size).value && m.loopStack == old(m.loopStack)
  {
    var fs := FrameSize(size);
    if fs.Err? {
      return Fail(fs.error);
    }
    var k := fs.value;
    if k == 0 {
      return Pass;
    }
    var offsets := sm.AllocatedCells();
    ghost var n, sp, bf0, c0, cells := m.nCells, m.stackPtr, m.bfPtr, m.code, sm.cells;
    ShrinkMoves(n, sp, bf0, cells, size, k, offsets);
    ghost var want := MovesResult(n, sp, bf0, offsets, -(k as int));
    o := MoveEach(m, offsets, -(k as int));
    assert Performs(o, want, c0, m.code, m.bfPtr);
    if o.Fail? {
      return;
    }
    ghost var c1, bf1 := m.code, m.bfPtr;
    m.stackPtr := m.stackPtr - k;
    assert m.code == c1 && m.bfPtr == bf1 && sm.cells == cells;
  }
}
