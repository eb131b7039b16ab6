/**
 * The built-in macros as they drive the tape machine and the allocator. Each
 * built-in is proved to stop with exactly the error its result function
 * predicts and, when it succeeds, to have appended exactly that function's
 * pieces, left the data pointer where it says, kept the frame and the loop
 * stack, and returned every scratch cell it took.
 */
module Builtins {
  import opened Wrappers
  import opened PatternMatch
  import opened Codegen
  import opened Allocator
  import opened BuiltinCode

  // ---------------------------------------------------------------------------
  // Steps shared by the built-ins: a move to a stack address followed by one
  // machine instruction, exactly as the built-ins issue them.

  /** `do_move_to_stack_address(a)` then `do_begin_loop()`. */
  method OpenAt(m: Machine, a: Value) returns (o: Outcome)
    requires IsStackAddress(a)
    modifies m
    ensures o == Bounds(m.nCells, Pos(old(m.stackPtr), a))
    ensures o.Pass? ==>
      m.code == old(m.code) + [Move(Pos(old(m.stackPtr), a) - old(m.bfPtr)), Open] &&
      m.bfPtr == Pos(old(m.stackPtr), a) && m.loopStack == old(m.loopStack) + [OffsetOf(a)]
    ensures m.stackPtr == old(m.stackPtr)
  {
    o := m.DoMoveToStackAddress(a);
    if o.Fail? {
      return;
    }
    o := m.DoBeginLoop();
  }

  /** `do_move_to_stack_address(a)` then `do_inc()` (`add`) or `do_dec()`. */
  method BumpAt(m: Machine, a: Value, add: bool) returns (o: Outcome)
    requires IsStackAddress(a)
    modifies m
    ensures o == Bounds(m.nCells, Pos(old(m.stackPtr), a))
    ensures o.Pass? ==>
      m.code == old(m.code) + [Move(Pos(old(m.stackPtr), a) - old(m.bfPtr)), Bump(add)] &&
      m.bfPtr == Pos(old(m.stackPtr), a) && m.loopStack == old(m.loopStack)
    ensures m.stackPtr == old(m.stackPtr)
  {
    o := m.DoMoveToStackAddress(a);
    if o.Fail? {
      return;
    }
    if add {
      o := m.DoInc(1);
    } else {
      o := m.DoDec(1);
    }
  }

  /** `do_move_to_stack_address(a)` then `do_end_loop()`, closing the loop opened at `a`. */
  method CloseAt(m: Machine, a: Value) returns (o: Outcome)
    requires IsStackAddress(a)
    requires m.loopStack != [] && m.loopStack[|m.loopStack| - 1] == OffsetOf(a)
    modifies m
    ensures o == Bounds(m.nCells, Pos(old(m.stackPtr), a))
    ensures o.Pass? ==>
      m.code == old(m.code) + [Move(Pos(old(m.stackPtr), a) - old(m.bfPtr)), Close] &&
      m.bfPtr == Pos(old(m.stackPtr), a) && m.loopStack == old(m.loopStack)[..|old(m.loopStack)| - 1]
    ensures m.stackPtr == old(m.stackPtr)
  {
    o := m.DoMoveToStackAddress(a);
    if o.Fail? {
      return;
    }
    o := m.DoEndLoop();
  }

  /** `assert_no_aliasing(a, b)`. */
  method CheckNoAliasing2(a: Value, b: Value) returns (o: Outcome)
    ensures o == NoAliasing([a, b])
    ensures o == if !IsStackAddress(a) || !IsStackAddress(b) then Fail(Malformed)
      else if OffsetOf(a) == OffsetOf(b) then Fail(Aliasing)
      else Pass
  {
    o := NoAliasing([a, b]);
    NoAliasingPair(a, b);
  }

  /** `assert_no_aliasing(a, b, c)`. */
  method CheckNoAliasing3(a: Value, b: Value, c: Value) returns (o: Outcome)
    ensures o == NoAliasing([a, b, c])
    ensures o == if !IsStackAddress(a) || !IsStackAddress(b) || !IsStackAddress(c) then Fail(Malformed)
      else if !Distinct3(OffsetOf(a), OffsetOf(b), OffsetOf(c)) then Fail(Aliasing)
      else Pass
  {
    o := NoAliasing([a, b, c]);
    NoAliasingTriple(a, b, c);
  }

  // ---------------------------------------------------------------------------
  // The built-ins without scratch cells

  /** `clear(dst)`: `[-]` at the destination. */
  method Clear(m: Machine, dst: Value) returns (o: Outcome)
    modifies m
    ensures Performs(o, ClearResult(m.nCells, old(m.stackPtr), old(m.bfPtr), dst), old(m.code), m.code, m.bfPtr)
    ensures m.stackPtr == old(m.stackPtr)
    ensures o.Pass? ==> m.loopStack == old(m.loopStack)
  {
    ghost var c0, bf0, ls0 := m.code, m.bfPtr, m.loopStack;
    o := m.DoMoveToStackAddress(dst);
    if o.Fail? {
      return;
    }
    ghost var c1, at := m.code, m.bfPtr;
    assert OnTape(m.nCells, at);
    o := m.DoBeginLoop();
    assert m.loopStack == ls0 + [at - m.stackPtr];
    o := m.DoDec(1);
    ghost var c2 := m.code;
    o := m.DoEndLoop();
    assert m.loopStack == ls0 && m.bfPtr == at && o == Pass;
    Chain3(c0, c1, c2, m.code, [Move(at - bf0)], [Open, Dec(1)], [Close]);
    assert ClearPieces(bf0, at) == [Move(at - bf0)] + [Open, Dec(1)] + [Close];
  }

  /**
   * The common body of `destructive_add` (`add`) and `destructive_sub`: the
   * aliasing check runs before anything is emitted.
   */
  method Drain(m: Machine, src: Value, dst: Value, add: bool) returns (o: Outcome)
    modifies m
    ensures Performs(o, DrainResult(m.nCells, old(m.stackPtr), old(m.bfPtr), src, dst, add), old(m.code), m.code, m.bfPtr)
    ensures NoAliasing([src, dst]).Fail? ==> o == NoAliasing([src, dst]) && m.code == old(m.code)
    ensures m.stackPtr == old(m.stackPtr)
    ensures o.Pass? ==> m.loopStack == old(m.loopStack)
  {
    o := CheckNoAliasing2(src, dst);
    if o.Fail? {
      return;
    }
    ghost var c0, bf0, s, d := m.code, m.bfPtr, Pos(m.stackPtr, src), Pos(m.stackPtr, dst);
    o := OpenAt(m, src);
    if o.Fail? {
      return;
    }
    ghost var c1 := m.code;
    o := m.DoDec(1);
    ghost var c2 := m.code;
    o := BumpAt(m, dst, add);
    if o.Fail? {
      return;
    }
    ghost var c3 := m.code;
    o := CloseAt(m, src);
    Chain4(c0, c1, c2, c3, m.code, [Move(s - bf0), Open], [Dec(1)], [Move(d - s), Bump(add)], [Move(s - d), Close]);
    assert DrainPieces(bf0, s, d, add) == [Move(s - bf0), Open] + [Dec(1)] + [Move(d - s), Bump(add)] + [Move(s - d), Close];
  }

  /** `destructive_add(src, dst)`: the source is emptied into the destination. */
  method DestructiveAdd(m: Machine, src: Value, dst: Value) returns (o: Outcome)
    modifies m
    ensures Performs(o, DrainResult(m.nCells, old(m.stackPtr), old(m.bfPtr), src, dst, true), old(m.code), m.code, m.bfPtr)
    ensures NoAliasing([src, dst]).Fail? ==> o == NoAliasing([src, dst]) && m.code == old(m.code)
    ensures m.stackPtr == old(m.stackPtr)
    ensures o.Pass? ==> m.loopStack == old(m.loopStack)
  {
    o := Drain(m, src, dst, true);
  }

  /** `destructive_sub(src, dst)`: the source is emptied out of the destination. */
  method DestructiveSub(m: Machine, src: Value, dst: Value) returns (o: Outcome)
    modifies m
    ensures Performs(o, DrainResult(m.nCells, old(m.stackPtr), old(m.bfPtr), src, dst, false), old(m.code), m.code, m.bfPtr)
    ensures NoAliasing([src, dst]).Fail? ==> o == NoAliasing([src, dst]) && m.code == old(m.code)
    ensures m.stackPtr == old(m.stackPtr)
    ensures o.Pass? ==> m.loopStack == old(m.loopStack)
  {
    o := Drain(m, src, dst, false);
  }

  /** `move(src, dst)`: `clear(dst)` then `destructive_add(src, dst)`. */
  method MoveValue(m: Machine, src: Value, dst: Value) returns (o: Outcome)
    modifies m
    ensures Performs(o, MoveResult(m.nCells, old(m.stackPtr), old(m.bfPtr), src, dst), old(m.code), m.code, m.bfPtr)
    ensures m.stackPtr == old(m.stackPtr)
    ensures o.Pass? ==> m.loopStack == old(m.loopStack)
  {
    ghost var c0 := m.code;
    o := Clear(m, dst);
    if o.Fail? {
      return;
    }
    ghost var c1, x1 := m.code, ClearResult(m.nCells, m.stackPtr, old(m.bfPtr), dst).value.pieces;
    o := DestructiveAdd(m, src, dst);
    if o.Pass? {
      Chain2(c0, c1, m.code, x1, DrainResult(m.nCells, m.stackPtr, Pos(m.stackPtr, dst), src, dst, true).value.pieces);
    }
  }

  /** `constant_add` (`add`) and `constant_sub`: step the destination by the constant. */
  method ConstantStep(m: Machine, src: Value, dst: Value, add: bool) returns (o: Outcome)
    modifies m
    ensures Performs(o, ConstantResult(m.nCells, old(m.stackPtr), old(m.bfPtr), src, dst, add), old(m.code), m.code, m.bfPtr)
    ensures m.stackPtr == old(m.stackPtr) && m.loopStack == old(m.loopStack)
  {
    if !IsConstant(src) {
      return Fail(Malformed);
    }
    var a := MatchConstant(src).value;
    o := m.DoMoveToStackAddress(dst);
    if o.Fail? {
      return;
    }
    if add {
      o := m.DoInc(a);
    } else {
      o := m.DoDec(a);
    }
  }

  /** `get_char(dst)` (`read`) and `put_char(dst)`: one `,` or `.` at the destination. */
  method CharIO(m: Machine, dst: Value, read: bool) returns (o: Outcome)
    modifies m
    ensures Performs(o, AtResult(m.nCells, old(m.stackPtr), old(m.bfPtr), dst, if read then Read else Write),
                     old(m.code), m.code, m.bfPtr)
    ensures m.stackPtr == old(m.stackPtr) && m.loopStack == old(m.loopStack)
  {
    o := m.DoMoveToStackAddress(dst);
    if o.Fail? {
      return;
    }
    if read {
      o := m.DoRead();
    } else {
      o := m.DoWrite();
    }
  }

  /** `begin_loop(src)`: open a loop at the source, remembering its offset. */
  method BeginLoop(m: Machine, src: Value) returns (o: Outcome)
    modifies m
    ensures Performs(o, AtResult(m.nCells, old(m.stackPtr), old(m.bfPtr), src, Open), old(m.code), m.code, m.bfPtr)
    ensures m.stackPtr == old(m.stackPtr)
    ensures o.Pass? ==> m.loopStack == old(m.loopStack) + [OffsetOf(src)]
  {
    if !IsStackAddress(src) {
      o := m.DoMoveToStackAddress(src);
      return;
    }
    o := OpenAt(m, src);
  }

  /** `end_loop(src)`: close the innermost loop, which must have been opened at the source. */
  method EndLoop(m: Machine, src: Value) returns (o: Outcome)
    modifies m
    ensures Performs(o, EndLoopResult(m.nCells, old(m.stackPtr), old(m.bfPtr), old(m.loopStack), src), old(m.code), m.code, m.bfPtr)
    ensures m.stackPtr == old(m.stackPtr)
    ensures o.Pass? ==> m.loopStack == old(m.loopStack)[..|old(m.loopStack)| - 1]
  {
    o := m.DoMoveToStackAddress(src);
    if o.Fail? {
      return;
    }
    o := m.DoEndLoop();
  }

  // ---------------------------------------------------------------------------
  // The built-ins with scratch cells

  /** The loop of `copy`, once the operands are known to be distinct addresses. */
  method CopyLoop(m: Machine, src: Value, dst: Value, tmp: Value) returns (o: Outcome)
    requires IsStackAddress(src) && IsStackAddress(dst) && IsStackAddress(tmp)
    requires OffsetOf(src) != OffsetOf(dst) && OffsetOf(src) != OffsetOf(tmp)
    requires OnTape(m.nCells, Pos(m.stackPtr, dst)) && OnTape(m.nCells, Pos(m.stackPtr, tmp))
    modifies m
    ensures o == Bounds(m.nCells, Pos(old(m.stackPtr), src))
    ensures o.Pass? ==>
      m.code == old(m.code) + CopyLoopPieces(old(m.bfPtr), Pos(old(m.stackPtr), src), Pos(old(m.stackPtr), dst), Pos(old(m.stackPtr), tmp)) &&
      m.bfPtr == Pos(old(m.stackPtr), src) && m.loopStack == old(m.loopStack)
    ensures m.stackPtr == old(m.stackPtr)
  {
    ghost var c0, bf0 := m.code, m.bfPtr;
    ghost var s, d, t := Pos(m.stackPtr, src), Pos(m.stackPtr, dst), Pos(m.stackPtr, tmp);
    o := OpenAt(m, src);
    if o.Fail? {
      return;
    }
    o := m.DoDec(1);
    ghost var c1 := m.code;
    o := BumpAt(m, dst, true);
    o := BumpAt(m, tmp, true);
    ghost var c2 := m.code;
    o := CloseAt(m, src);
    Chain3(c0, c1, c2, m.code, [Move(s - bf0), Open, Dec(1)], [Move(d - s), Inc(1), Move(t - d), Inc(1)], [Move(s - t), Close]);
    assert CopyLoopPieces(bf0, s, d, t) == [Move(s - bf0), Open, Dec(1)] + [Move(d - s), Inc(1), Move(t - d), Inc(1)] + [Move(s - t), Close];
  }

  /** `copy` after its aliasing check, with the scratch cell already taken. */
  method CopyWith(m: Machine, src: Value, dst: Value, tmp: Value) returns (o: Outcome)
    requires IsStackAddress(src) && IsStackAddress(dst) && IsStackAddress(tmp)
    requires Distinct3(OffsetOf(src), OffsetOf(dst), OffsetOf(tmp))
    modifies m
    ensures Performs(o, CopyResult(m.nCells, old(m.stackPtr), old(m.bfPtr), OffsetOf(tmp), src, dst), old(m.code), m.code, m.bfPtr)
    ensures m.stackPtr == old(m.stackPtr)
    ensures o.Pass? ==> m.loopStack == old(m.loopStack)
  {
    ghost var c0, bf0 := m.code, m.bfPtr;
    ghost var s, d, t := Pos(m.stackPtr, src), Pos(m.stackPtr, dst), Pos(m.stackPtr, tmp);
    o := Clear(m, dst);
    if o.Fail? {
      return;
    }
    ghost var c1 := m.code;
    o := Clear(m, tmp);
    if o.Fail? {
      return;
    }
    ghost var c2 := m.code;
    o := CopyLoop(m, src, dst, tmp);
    if o.Fail? {
      return;
    }
    ghost var c3 := m.code;
    o := DestructiveAdd(m, tmp, src);
    Chain4(c0, c1, c2, c3, m.code, ClearPieces(bf0, d), ClearPieces(d, t), CopyLoopPieces(t, s, d, t), DrainPieces(s, t, s, true));
  }

  /** `copy(src, dst)`: a scratch cell is taken from the allocator for the round trip and given back. */
  method Copy(m: Machine, sm: StackMan, src: Value, dst: Value) returns (o: Outcome)
    modifies m, sm
    ensures Performs(o, CopyResult(m.nCells, old(m.stackPtr), old(m.bfPtr), LeastFree(old(sm.cells)), src, dst),
                     old(m.code), m.code, m.bfPtr)
    ensures m.stackPtr == old(m.stackPtr)
    ensures o.Pass? ==> m.loopStack == old(m.loopStack) && sm.cells == old(sm.cells)
  {
    ghost var t := LeastFree(sm.cells);
    var tmp := sm.AllocateLocal();
    o := CheckNoAliasing3(src, dst, tmp);
    if o.Fail? {
      return;
    }
    o := CopyWith(m, src, dst, tmp);
    if o.Fail? {
      return;
    }
    FreeAddressOf(t);
    o := sm.FreeLocal(tmp);
  }

  /** `stack_add` (`add`) and `stack_sub`: copy into a scratch cell, then drain it into the destination. */
  method StackArith(m: Machine, sm: StackMan, src: Value, dst: Value, add: bool) returns (o: Outcome)
    modifies m, sm
    ensures Performs(o, StackArithResult(m.nCells, old(m.stackPtr), old(m.bfPtr), old(sm.cells), src, dst, add),
                     old(m.code), m.code, m.bfPtr)
    ensures m.stackPtr == old(m.stackPtr)
    ensures o.Pass? ==> m.loopStack == old(m.loopStack) && sm.cells == old(sm.cells)
  {
    ghost var c0, t0 := m.code, LeastFree(sm.cells);
    var tmp := sm.AllocateLocal();
    o := Copy(m, sm, src, tmp);
    if o.Fail? {
      return;
    }
    ghost var c1, x1 := m.code, m.code[|c0|..];
    assert c1 == c0 + x1;
    o := Drain(m, tmp, dst, add);
    if o.Fail? {
      return;
    }
    Chain2(c0, c1, m.code, x1, m.code[|c1|..]);
    FreeAddressOf(t0);
    o := sm.FreeLocal(tmp);
  }

  /** The loop of `as_logical` (`add`) and `logical_not`: bump the destination once if scratch `tmp` is non-zero. */
  method NormLoop(m: Machine, dst: Value, tmp: Value, add: bool) returns (o: Outcome)
    requires IsStackAddress(dst) && IsStackAddress(tmp) && OnTape(m.nCells, Pos(m.stackPtr, dst))
    requires OnTape(m.nCells, Pos(m.stackPtr, tmp)) && m.bfPtr == Pos(m.stackPtr, dst)
    modifies m
    ensures o.Pass?
    ensures m.code == old(m.code) + NormLoopPieces(old(m.bfPtr), Pos(old(m.stackPtr), tmp), add)
    ensures m.bfPtr == Pos(old(m.stackPtr), tmp) && m.loopStack == old(m.loopStack)
    ensures m.stackPtr == old(m.stackPtr)
  {
    ghost var c0, d, t := m.code, m.bfPtr, Pos(m.stackPtr, tmp);
    o := OpenAt(m, tmp);
    o := BumpAt(m, dst, add);
    ghost var c1 := m.code;
    o := Clear(m, tmp);
    ghost var c2 := m.code;
    o := m.DoEndLoop();
    Chain3(c0, c1, c2, m.code, [Move(t - d), Open, Move(d - t), Bump(add)], ClearPieces(d, t), [Close]);
  }

  /** `as_logical` or `logical_not` after the aliasing check, with scratch `tmp` already taken. */
  method LogicalWith(m: Machine, sm: StackMan, src: Value, dst: Value, tmp: Value, isNot: bool) returns (o: Outcome)
    requires IsStackAddress(src) && IsStackAddress(dst) && IsStackAddress(tmp)
    modifies m, sm
    ensures o.Pass? ==> sm.cells == old(sm.cells)
    ensures m.stackPtr == old(m.stackPtr)
    ensures o.Pass? ==> m.loopStack == old(m.loopStack)
    ensures
      var cp := CopyResult(m.nCells, old(m.stackPtr), old(m.bfPtr), LeastFree(old(sm.cells)), src, tmp);
      if cp.Err? then o == Fail(cp.error)
      else
        var cl := ClearResult(m.nCells, old(m.stackPtr), cp.value.bf, dst);
        if cl.Err? then o == Fail(cl.error)
        else (o == Pass && m.bfPtr == Pos(old(m.stackPtr), tmp) &&
              m.code == old(m.code) + (cp.value.pieces + cl.value.pieces + (if isNot then [Move(0), Inc(1)] else [])
                                       + NormLoopPieces(cl.value.bf, Pos(old(m.stackPtr), tmp), !isNot)))
  {
    ghost var c0 := m.code;
    o := Copy(m, sm, src, tmp);
    if o.Fail? {
      return;
    }
    ghost var c1 := m.code;
    o := Clear(m, dst);
    if o.Fail? {
      return;
    }
    ghost var c2 := m.code;
    if isNot {
      o := BumpAt(m, dst, true);
    }
    ghost var c3 := m.code;
    o := NormLoop(m, dst, tmp, !isNot);
    Chain4(c0, c1, c2, c3, m.code, c1[|c0|..], c2[|c1|..], c3[|c2|..], m.code[|c3|..]);
  }

  /** `as_logical(src, dst)` (`isNot` false) and `logical_not(src, dst)`. */
  method Logical(m: Machine, sm: StackMan, src: Value, dst: Value, isNot: bool) returns (o: Outcome)
    modifies m, sm
    ensures Performs(o, LogicalResult(m.nCells, old(m.stackPtr), old(m.bfPtr), old(sm.cells), src, dst, isNot),
                     old(m.code), m.code, m.bfPtr)
    ensures m.stackPtr == old(m.stackPtr)
    ensures o.Pass? ==> m.loopStack == old(m.loopStack) && sm.cells == old(sm.cells)
  {
    ghost var cells := sm.cells;
    ghost var t0 := LeastFree(cells);
    var tmp := sm.AllocateLocal();
    o := CheckNoAliasing3(src, dst, tmp);
    if o.Fail? {
      return;
    }
    o := LogicalWith(m, sm, src, dst, tmp, isNot);
    if o.Fail? {
      return;
    }
    ghost var c1, bf1 := m.code, m.bfPtr;
    FreeAddressOf(t0);
    AddRemoveFresh(cells, t0);
    o := sm.FreeLocal(tmp);
    assert o == Pass && sm.cells == cells && m.code == c1 && m.bfPtr == bf1;
  }

  /** One operand of `logical_or`/`logical_and`: normalise it into scratch `tmp`, then `stack_add(tmp, dst)`. */
  method Accumulate(m: Machine, sm: StackMan, x: Value, tmp: Value, dst: Value, isOr: bool) returns (o: Outcome)
    modifies m, sm
    ensures Performs(o, AccumulateResult(m.nCells, old(m.stackPtr), old(m.bfPtr), old(sm.cells), x, tmp, dst, isOr),
                     old(m.code), m.code, m.bfPtr)
    ensures m.stackPtr == old(m.stackPtr)
    ensures o.Pass? ==> m.loopStack == old(m.loopStack) && sm.cells == old(sm.cells)
  {
    ghost var c0 := m.code;
    o := Logical(m, sm, x, tmp, !isOr);
    if o.Fail? {
      return;
    }
    ghost var c1 := m.code;
    o := StackArith(m, sm, tmp, dst, true);
    if o.Pass? {
      Chain2(c0, c1, m.code, c1[|c0|..], m.code[|c1|..]);
    }
  }

  /** The body of `logical_or`/`logical_and` once scratch `tmp` has been taken. */
  method LogicalPairWith(m: Machine, sm: StackMan, tmp: Value, a: Value, b: Value, dst: Value, isOr: bool) returns (o: Outcome)
    modifies m, sm
    ensures Performs(o, LogicalPairBody(m.nCells, old(m.stackPtr), old(m.bfPtr), old(sm.cells), tmp, a, b, dst, isOr),
                     old(m.code), m.code, m.bfPtr)
    ensures m.stackPtr == old(m.stackPtr)
    ensures o.Pass? ==> m.loopStack == old(m.loopStack) && sm.cells == old(sm.cells)
  {
    ghost var c0 := m.code;
    o := Clear(m, dst);
    if o.Fail? {
      return;
    }
    ghost var c1 := m.code;
    o := Accumulate(m, sm, a, tmp, dst, isOr);
    if o.Fail? {
      return;
    }
    ghost var c2 := m.code;
    o := Accumulate(m, sm, b, tmp, dst, isOr);
    if o.Fail? {
      return;
    }
    ghost var c3 := m.code;
    o := Logical(m, sm, dst, tmp, !isOr);
    if o.Fail? {
      return;
    }
    ghost var c4 := m.code;
    o := MoveValue(m, tmp, dst);
    if o.Pass? {
      Chain5(c0, c1, c2, c3, c4, m.code, c1[|c0|..], c2[|c1|..], c3[|c2|..], c4[|c3|..], m.code[|c4|..]);
    }
  }

  /** `logical_or(a, b, dst)` (`isOr`) and `logical_and(a, b, dst)`, around scratch `t0`. */
  method LogicalPair(m: Machine, sm: StackMan, a: Value, b: Value, dst: Value, isOr: bool) returns (o: Outcome)
    modifies m, sm
    ensures Performs(o, LogicalPairResult(m.nCells, old(m.stackPtr), old(m.bfPtr), old(sm.cells), a, b, dst, isOr),
                     old(m.code), m.code, m.bfPtr)
    ensures m.stackPtr == old(m.stackPtr)
    ensures o.Pass? ==> m.loopStack == old(m.loopStack) && sm.cells == old(sm.cells)
  {
    ghost var t0 := LeastFree(sm.cells);
    var tmp := sm.AllocateLocal();
    o := LogicalPairWith(m, sm, tmp, a, b, dst, isOr);
    if o.Fail? {
      return;
    }
    FreeAddressOf(t0);
    o := sm.FreeLocal(tmp);
  }

  /** One character of `put_string_constant`: step the scratch cell from `cur` to `c` and print it. */
  method PutCharCode(m: Machine, cur: int, c: int) returns (o: Outcome)
    requires OnTape(m.nCells, m.bfPtr)
    modifies m
    ensures o.Pass? && m.code == old(m.code) + (DeltaPieces(c - cur) + [Write])
    ensures m.bfPtr == old(m.bfPtr) && m.stackPtr == old(m.stackPtr) && m.loopStack == old(m.loopStack)
  {
    ghost var c0 := m.code;
    var delta := c - cur;
    if delta > 0 {
      o := m.DoInc(delta);
    } else if delta < 0 {
      o := m.DoDec(-delta);
    }
    assert m.code == c0 + DeltaPieces(delta);
    o := m.DoWrite();
    PiecesAssoc(c0, DeltaPieces(delta), [Write]);
  }

  /** `put_string_constant(sc)`: print the string through a cleared scratch cell. */
  method PutString(m: Machine, sm: StackMan, sc: Value) returns (o: Outcome)
    modifies m, sm
    ensures Performs(o, PutStringResult(m.nCells, old(m.stackPtr), old(m.bfPtr), old(sm.cells), sc),
                     old(m.code), m.code, m.bfPtr)
    ensures m.stackPtr == old(m.stackPtr)
    ensures o.Pass? ==> m.loopStack == old(m.loopStack) && sm.cells == old(sm.cells)
  {
    if !IsStringConstant(sc) {
      return Fail(Malformed);
    }
    var s := MatchStringConstant(sc).value;
    ghost var t0 := LeastFree(sm.cells);
    var tmp := sm.AllocateLocal();
    ghost var c0 := m.code;
    o := Clear(m, tmp);
    if o.Fail? {
      return;
    }
    ghost var c1 := m.code;
    PrintRun(m, s);
    Chain2(c0, c1, m.code, c1[|c0|..], RunPieces(s));
    FreeAddressOf(t0);
    o := sm.FreeLocal(tmp);
  }

  /** The loop of `put_string_constant`: each character stepped to from the previous one, then printed. */
  method PrintRun(m: Machine, s: string)
    requires OnTape(m.nCells, m.bfPtr)
    modifies m
    ensures m.code == old(m.code) + RunPieces(s)
    ensures m.bfPtr == old(m.bfPtr) && m.stackPtr == old(m.stackPtr) && m.loopStack == old(m.loopStack)
  {
    var cur := 0;
    var i := 0;
    while i < |s|
      invariant 0 <= i <= |s|
      invariant m.code == old(m.code) + RunPieces(s[..i]) && cur == LastCode(s[..i])
      invariant m.bfPtr == old(m.bfPtr) && m.stackPtr == old(m.stackPtr) && m.loopStack == old(m.loopStack)
    {
      var o := PutCharCode(m, cur, s[i] as int);
      assert s[..i + 1][..i] == s[..i];
      assert RunPieces(s[..i + 1]) == RunPieces(s[..i]) + DeltaPieces(s[i] as int - cur) + [Write];
      PiecesAssoc(RunPieces(s[..i]), DeltaPieces(s[i] as int - cur), [Write]);
      PiecesAssoc(old(m.code), RunPieces(s[..i]), DeltaPieces(s[i] as int - cur) + [Write]);
      cur := s[i] as int;
      i := i + 1;
    }
    assert s[..i] == s;
  }
}
