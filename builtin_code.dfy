/**
 * What each built-in macro emits. For a machine with `n` cells whose frame
 * starts at `sp` and whose data pointer is at `bf`, a built-in either stops at
 * the first check that fails, with that check's error, or appends a fixed list
 * of pieces and leaves the data pointer at a known cell. The result functions
 * follow the built-ins' own order of checks and of nested built-in calls;
 * scratch cells are the least free offsets of the allocator at the time of
 * the call.
 */
module BuiltinCode {
  import opened Wrappers
  import opened PatternMatch
  import opened Opcodes
  import opened Codegen
  import opened Allocator

  predicate OnTape(nCells: int, p: int)
  {
    0 <= p < nCells
  }

  predicate Distinct3(a: int, b: int, c: int)
  {
    a != b && a != c && b != c
  }

  /** The tape position of a stack address in the frame starting at `sp`. */
  function Pos(sp: int, a: Value): int
    requires IsStackAddress(a)
  {
    sp + OffsetOf(a)
  }

  /** `do_inc()` or `do_dec()`. */
  function Bump(add: bool): Piece
  {
    if add then Inc(1) else Dec(1)
  }

  // ---------------------------------------------------------------------------
  // The pieces, as a function of where the data pointer starts

  /** `clear`: walk to `to`, then `[-]`. */
  function ClearPieces(from: int, to: int): seq<Piece>
  {
    [Move(to - from), Open, Dec(1), Close]
  }

  /** `destructive_add`/`destructive_sub`: drain `s` into `d`, adding (or subtracting) one per unit. */
  function DrainPieces(from: int, s: int, d: int, add: bool): seq<Piece>
  {
    [Move(s - from), Open, Dec(1), Move(d - s), Bump(add), Move(s - d), Close]
  }

  /** The loop of `copy`: take one unit from `s` and add one to each of `d` and `t`. */
  function CopyLoopPieces(from: int, s: int, d: int, t: int): seq<Piece>
  {
    [Move(s - from), Open, Dec(1), Move(d - s), Inc(1), Move(t - d), Inc(1), Move(s - t), Close]
  }

  /** The loop of `as_logical`/`logical_not`: while `t` is non-zero, bump `d` once and clear `t`. */
  function NormLoopPieces(d: int, t: int, add: bool): seq<Piece>
  {
    [Move(t - d), Open, Move(d - t), Bump(add)] + ClearPieces(d, t) + [Close]
  }

  /** The step of `put_string_constant` that changes the cell by `k`: nothing for 0. */
  function DeltaPieces(k: int): seq<Piece>
  {
    if k > 0 then [Inc(k)] else if k < 0 then [Dec(-k)] else []
  }

  /** The character code the scratch cell holds after printing `s` (0 before the first character). */
  function LastCode(s: string): int
  {
    if s == [] then 0 else s[|s| - 1] as int
  }

  /** The body of `put_string_constant`: per character, step the cell from the previous code and print. */
  function RunPieces(s: string): seq<Piece>
  {
    if s == [] then []
    else
      var prefix := s[..|s| - 1];
      RunPieces(prefix) + DeltaPieces(s[|s| - 1] as int - LastCode(prefix)) + [Write]
  }

  // ---------------------------------------------------------------------------
  // The checks and the pieces of each built-in

  datatype Emitted = Emitted(pieces: seq<Piece>, bf: int)

  function OutcomeOf(r: Result<Emitted>): Outcome
  {
    if r.Ok? then Pass else Fail(r.error)
  }

  /** A move to `a` followed by the single piece `p` at `a`. */
  function AtResult(n: int, sp: int, bf: int, a: Value, p: Piece): Result<Emitted>
  {
    if !IsStackAddress(a) then Err(Malformed)
    else if !OnTape(n, Pos(sp, a)) then Err(OutOfRange)
    else Ok(Emitted([Move(Pos(sp, a) - bf), p], Pos(sp, a)))
  }

  function ClearResult(n: int, sp: int, bf: int, dst: Value): Result<Emitted>
  {
    if !IsStackAddress(dst) then Err(Malformed)
    else if !OnTape(n, Pos(sp, dst)) then Err(OutOfRange)
    else Ok(Emitted(ClearPieces(bf, Pos(sp, dst)), Pos(sp, dst)))
  }

  /** The aliasing check comes first; then the source, then the destination, must lie on the tape. */
  function DrainResult(n: int, sp: int, bf: int, src: Value, dst: Value, add: bool): Result<Emitted>
  {
    if !IsStackAddress(src) || !IsStackAddress(dst) then Err(Malformed)
    else if OffsetOf(src) == OffsetOf(dst) then Err(Aliasing)
    else if !OnTape(n, Pos(sp, src)) || !OnTape(n, Pos(sp, dst)) then Err(OutOfRange)
    else Ok(Emitted(DrainPieces(bf, Pos(sp, src), Pos(sp, dst), add), Pos(sp, src)))
  }

  /** `move`: `clear(dst)`, then `destructive_add(src, dst)`. */
  function MoveResult(n: int, sp: int, bf: int, src: Value, dst: Value): Result<Emitted>
  {
    var c :- ClearResult(n, sp, bf, dst);
    var r :- DrainResult(n, sp, c.bf, src, dst, true);
    Ok(Emitted(c.pieces + r.pieces, r.bf))
  }

  /**
   * `copy` with its scratch cell at frame offset `t`: the three operands must
   * be distinct; clear the destination and the scratch cell, drain the source
   * into both, and drain the scratch cell back into the source.
   */
  function CopyResult(n: int, sp: int, bf: int, t: int, src: Value, dst: Value): Result<Emitted>
  {
    if !IsStackAddress(src) || !IsStackAddress(dst) then Err(Malformed)
    else if !Distinct3(OffsetOf(src), OffsetOf(dst), t) then Err(Aliasing)
    else if !OnTape(n, Pos(sp, dst)) || !OnTape(n, sp + t) || !OnTape(n, Pos(sp, src)) then Err(OutOfRange)
    else
      var s, d := Pos(sp, src), Pos(sp, dst);
      Ok(Emitted(ClearPieces(bf, d) + ClearPieces(d, sp + t) + CopyLoopPieces(sp + t, s, d, sp + t)
                 + DrainPieces(s, sp + t, s, true), sp + t))
  }

  /**
   * `stack_add`/`stack_sub`: copy the source into scratch `t0` (the copy's
   * own scratch is the next free cell), then drain `t0` into the destination.
   */
  function StackArithResult(n: int, sp: int, bf: int, cells: set<int>, src: Value, dst: Value, add: bool): Result<Emitted>
  {
    var t0 := LeastFree(cells);
    var t1 := LeastFree(cells + {t0});
    var cp :- CopyResult(n, sp, bf, t1, src, AddressOf(t0));
    var dr :- DrainResult(n, sp, cp.bf, AddressOf(t0), dst, add);
    Ok(Emitted(cp.pieces + dr.pieces, dr.bf))
  }

  /**
   * `as_logical` (`isNot` false) and `logical_not` (`isNot` true): copy the
   * source into scratch `t0`, clear the destination (`logical_not` then sets
   * it to one), and bump it once if `t0` is non-zero.
   */
  function LogicalResult(n: int, sp: int, bf: int, cells: set<int>, src: Value, dst: Value, isNot: bool): Result<Emitted>
  {
    var t0 := LeastFree(cells);
    var t1 := LeastFree(cells + {t0});
    if !IsStackAddress(src) || !IsStackAddress(dst) then Err(Malformed)
    else if !Distinct3(OffsetOf(src), OffsetOf(dst), t0) then Err(Aliasing)
    else
      var cp :- CopyResult(n, sp, bf, t1, src, AddressOf(t0));
      var cl :- ClearResult(n, sp, cp.bf, dst);
      var set1 := if isNot then [Move(0), Inc(1)] else [];
      Ok(Emitted(cp.pieces + cl.pieces + set1 + NormLoopPieces(cl.bf, sp + t0, !isNot), sp + t0))
  }

  /**
   * One operand of `logical_or` (`isOr`) or `logical_and`: normalise `x` into
   * scratch `tmp` (`as_logical` for or, `logical_not` for and), then
   * `stack_add(tmp, dst)`.
   */
  function AccumulateResult(n: int, sp: int, bf: int, c: set<int>, x: Value, tmp: Value, dst: Value, isOr: bool): Result<Emitted>
  {
    var r1 :- LogicalResult(n, sp, bf, c, x, tmp, !isOr);
    var r2 :- StackArithResult(n, sp, r1.bf, c, tmp, dst, true);
    Ok(Emitted(r1.pieces + r2.pieces, r2.bf))
  }

  /**
   * `logical_or` (`isOr`) and `logical_and` once scratch `tmp` is taken from
   * `c`: clear the destination, add the normalised operands into it through
   * `tmp`, normalise the sum and move it back.
   */
  function LogicalPairBody(n: int, sp: int, bf: int, c: set<int>, tmp: Value, a: Value, b: Value, dst: Value, isOr: bool): Result<Emitted>
  {
    var r0 :- ClearResult(n, sp, bf, dst);
    var r1 :- AccumulateResult(n, sp, r0.bf, c, a, tmp, dst, isOr);
    var r2 :- AccumulateResult(n, sp, r1.bf, c, b, tmp, dst, isOr);
    var r3 :- LogicalResult(n, sp, r2.bf, c, dst, tmp, !isOr);
    var r4 :- MoveResult(n, sp, r3.bf, tmp, dst);
    Ok(Emitted(r0.pieces + r1.pieces + r2.pieces + r3.pieces + r4.pieces, r4.bf))
  }

  /** `logical_or`/`logical_and` with scratch `t0`: every nested built-in allocates above it. */
  function LogicalPairResult(n: int, sp: int, bf: int, cells: set<int>, a: Value, b: Value, dst: Value, isOr: bool): Result<Emitted>
  {
    var t0 := LeastFree(cells);
    LogicalPairBody(n, sp, bf, cells + {t0}, AddressOf(t0), a, b, dst, isOr)
  }

  /** `constant_add`/`constant_sub`: the constant is matched first, its sign checked after the move. */
  function ConstantResult(n: int, sp: int, bf: int, src: Value, dst: Value, add: bool): Result<Emitted>
  {
    if !IsConstant(src) then Err(Malformed)
    else if !IsStackAddress(dst) then Err(Malformed)
    else if !OnTape(n, Pos(sp, dst)) then Err(OutOfRange)
    else
      var a := MatchConstant(src).value;
      if a < 0 then Err(NegativeCount)
      else Ok(Emitted([Move(Pos(sp, dst) - bf), if add then Inc(a) else Dec(a)], Pos(sp, dst)))
  }

  /** `put_string_constant`: clear a scratch cell and print the string through it. */
  function PutStringResult(n: int, sp: int, bf: int, cells: set<int>, sc: Value): Result<Emitted>
  {
    if !IsStringConstant(sc) then Err(Malformed)
    else
      var cl :- ClearResult(n, sp, bf, AddressOf(LeastFree(cells)));
      Ok(Emitted(cl.pieces + RunPieces(MatchStringConstant(sc).value), cl.bf))
  }

  /** `end_loop`: the `]` is appended before the loop stack is consulted. */
  function EndLoopResult(n: int, sp: int, bf: int, stack: seq<int>, src: Value): Result<Emitted>
  {
    if !IsStackAddress(src) then Err(Malformed)
    else if !OnTape(n, Pos(sp, src)) then Err(OutOfRange)
    else if stack == [] then Err(EmptyLoopStack)
    else if stack[|stack| - 1] != OffsetOf(src) then Err(LoopImbalance)
    else Ok(Emitted([Move(Pos(sp, src) - bf), Close], Pos(sp, src)))
  }

  /** What was emitted so far, followed by one more step (or that step's error). */
  function After(e: Emitted, r: Result<Emitted>): Result<Emitted>
  {
    if r.Err? then Err(r.error) else Ok(Emitted(e.pieces + r.value.pieces, r.value.bf))
  }

  /** The outcome is the one `r` predicts and, on success, exactly `r`'s pieces were appended. */
  ghost predicate Performs(o: Outcome, r: Result<Emitted>, code0: seq<Piece>, code: seq<Piece>, bf: int)
  {
    o == OutcomeOf(r) && (r.Ok? ==> code == code0 + r.value.pieces && bf == r.value.bf)
  }

  // ---------------------------------------------------------------------------
  // Emitted pieces keep the machine valid

  /** The loop depth a piece list ends at, relative to where it starts. */
  function Net(ps: seq<Piece>): int
  {
    if ps == [] then 0 else Net(ps[..|ps| - 1]) + DepthChange(ps[|ps| - 1])
  }

  function Min(a: int, b: int): int
  {
    if a <= b then a else b
  }

  /** The lowest depth any prefix of the list reaches, relative to its start. */
  function Low(ps: seq<Piece>): int
  {
    if ps == [] then 0 else Min(Low(ps[..|ps| - 1]), Net(ps))
  }

  predicate NoRaw(ps: seq<Piece>)
  {
    forall i :: 0 <= i < |ps| ==> !ps[i].Raw?
  }

  /** Pieces that may be appended to valid code: no raw text, and every loop they open they close. */
  predicate Emittable(ps: seq<Piece>)
  {
    NoRaw(ps) && Low(ps) == 0 && Net(ps) == 0
  }

  /** A piece that is neither a bracket nor raw text. */
  predicate Plain(p: Piece)
  {
    !p.Raw? && !p.Open? && !p.Close?
  }

  lemma {:induction false} Single(p: Piece)
    ensures Net([p]) == DepthChange(p) && Low([p]) == Min(0, DepthChange(p))
  {
    assert [p][..0] == [];
  }

  lemma {:induction false} NetLowAppend(a: seq<Piece>, b: seq<Piece>)
    ensures Net(a + b) == Net(a) + Net(b)
    ensures Low(a + b) == Min(Low(a), Net(a) + Low(b))
    decreases |b|
  {
    if b == [] {
      assert a + b == a;
      LowAtMostZero(a);
    } else {
      var b', p := b[..|b| - 1], b[|b| - 1];
      assert (a + b)[..|a + b| - 1] == a + b';
      NetLowAppend(a, b');
    }
  }

  lemma {:induction false} LowAtMostZero(ps: seq<Piece>)
    ensures Low(ps) <= 0
  {
    if ps != [] {
      LowAtMostZero(ps[..|ps| - 1]);
    }
  }

  lemma {:induction false} EmittableAppend(a: seq<Piece>, b: seq<Piece>)
    requires Emittable(a) && Emittable(b)
    ensures Emittable(a + b)
  {
    NetLowAppend(a, b);
  }

  lemma {:induction false} EmittableAppend3(a: seq<Piece>, b: seq<Piece>, c: seq<Piece>)
    requires Emittable(a) && Emittable(b) && Emittable(c)
    ensures Emittable(a + b + c)
  {
    EmittableAppend(a, b);
    EmittableAppend(a + b, c);
  }

  lemma {:induction false} PlainEmittable(ps: seq<Piece>)
    requires forall i :: 0 <= i < |ps| ==> Plain(ps[i])
    ensures Emittable(ps)
    decreases |ps|
  {
    if ps != [] {
      var init, p := ps[..|ps| - 1], ps[|ps| - 1];
      PlainEmittable(init);
    }
  }

  lemma {:induction false} LoopEmittable(b: seq<Piece>)
    requires Emittable(b)
    ensures Emittable([Open] + b + [Close])
  {
    Single(Open);
    Single(Close);
    NetLowAppend([Open], b);
    NetLowAppend([Open] + b, [Close]);
  }

  /**
   * The text of a raw-free piece list is instruction text whose depth is the
   * list's net depth, and it never dips below zero from any starting depth
   * that the list's lowest prefix keeps non-negative.
   */
  lemma {:induction false} TextShape(ps: seq<Piece>, d: int)
    requires NoRaw(ps) && d + Low(ps) >= 0
    ensures AllOpcodes(Text(ps)) && StaysOpen(d, Text(ps)) && Depth(Text(ps)) == Net(ps)
    decreases |ps|
  {
    if ps == [] {
      assert Text(ps) == [];
      assert Text(ps)[..0] == [];
    } else {
      var init, p := ps[..|ps| - 1], ps[|ps| - 1];
      assert ps == init + [p];
      TextShape(init, d);
      TextSnoc(init, p);
      PieceOpcodes(p);
      var e := d + Net(init);
      assert e >= 0;
      if p.Open? {
        OpenStaysOpen(e);
      } else if p.Close? {
        CloseStaysOpen(e);
      } else {
        BracketFreeStaysOpen(e, PieceText(p));
        BracketFreeDepth(PieceText(p));
      }
      StaysOpenAppend(d, Text(init), PieceText(p));
      AllOpcodesAppend(Text(init), PieceText(p));
    }
  }

  /** Emittable pieces spell closed instruction text. */
  lemma {:induction false} EmittableText(ps: seq<Piece>)
    requires Emittable(ps)
    ensures AllOpcodes(Text(ps)) && Closed(Text(ps))
  {
    TextShape(ps, 0);
  }

  /** Emittable pieces appended to valid code leave it valid at the same depth. */
  lemma {:induction false} EmittableKeepsValid(code: seq<Piece>, depth: int, ps: seq<Piece>)
    requires ValidCode(Text(code), depth) && Emittable(ps)
    ensures ValidCode(Text(code + ps), depth)
  {
    EmittableText(ps);
    TextAppend(code, ps);
    AllOpcodesAppend(Text(code), Text(ps));
    ClosedKeepsWellbracketed(Text(code), Text(ps));
  }

  /** A loop whose body only moves and bumps, after a move into place. */
  lemma {:induction false} SimpleLoopEmittable(mv: Piece, body: seq<Piece>)
    requires Plain(mv) && forall i :: 0 <= i < |body| ==> Plain(body[i])
    ensures Emittable([mv] + ([Open] + body + [Close]))
  {
    PlainEmittable([mv]);
    PlainEmittable(body);
    LoopEmittable(body);
    EmittableAppend([mv], [Open] + body + [Close]);
  }

  lemma {:induction false} ClearPiecesShape(from: int, to: int)
    ensures Emittable(ClearPieces(from, to))
  {
    SimpleLoopEmittable(Move(to - from), [Dec(1)]);
    assert ClearPieces(from, to) == [Move(to - from)] + ([Open] + [Dec(1)] + [Close]);
  }

  lemma {:induction false} DrainPiecesShape(from: int, s: int, d: int, add: bool)
    ensures Emittable(DrainPieces(from, s, d, add))
  {
    var body := [Dec(1), Move(d - s), Bump(add), Move(s - d)];
    SimpleLoopEmittable(Move(s - from), body);
    assert DrainPieces(from, s, d, add) == [Move(s - from)] + ([Open] + body + [Close]);
  }

  lemma {:induction false} CopyLoopPiecesShape(from: int, s: int, d: int, t: int)
    ensures Emittable(CopyLoopPieces(from, s, d, t))
  {
    var body := [Dec(1), Move(d - s), Inc(1), Move(t - d), Inc(1), Move(s - t)];
    SimpleLoopEmittable(Move(s - from), body);
    assert CopyLoopPieces(from, s, d, t) == [Move(s - from)] + ([Open] + body + [Close]);
  }

  lemma {:induction false} NormLoopPiecesShape(d: int, t: int, add: bool)
    ensures Emittable(NormLoopPieces(d, t, add))
  {
    var head := [Move(d - t), Bump(add)];
    PlainEmittable(head);
    ClearPiecesShape(d, t);
    EmittableAppend(head, ClearPieces(d, t));
    LoopEmittable(head + ClearPieces(d, t));
    PlainEmittable([Move(t - d)]);
    EmittableAppend([Move(t - d)], [Open] + (head + ClearPieces(d, t)) + [Close]);
    assert NormLoopPieces(d, t, add) == [Move(t - d)] + ([Open] + (head + ClearPieces(d, t)) + [Close]);
  }

  lemma {:induction false} RunPiecesShape(s: string)
    ensures forall i :: 0 <= i < |RunPieces(s)| ==> Plain(RunPieces(s)[i])
    decreases |s|
  {
    if s != [] {
      RunPiecesShape(s[..|s| - 1]);
    }
  }

  // What every successful built-in appends is emittable.

  lemma {:induction false} ClearEmits(n: int, sp: int, bf: int, dst: Value)
    requires ClearResult(n, sp, bf, dst).Ok?
    ensures Emittable(ClearResult(n, sp, bf, dst).value.pieces)
  {
    ClearPiecesShape(bf, Pos(sp, dst));
  }

  lemma {:induction false} DrainEmits(n: int, sp: int, bf: int, src: Value, dst: Value, add: bool)
    requires DrainResult(n, sp, bf, src, dst, add).Ok?
    ensures Emittable(DrainResult(n, sp, bf, src, dst, add).value.pieces)
  {
    DrainPiecesShape(bf, Pos(sp, src), Pos(sp, dst), add);
  }

  lemma {:induction false} MoveEmits(n: int, sp: int, bf: int, src: Value, dst: Value)
    requires MoveResult(n, sp, bf, src, dst).Ok?
    ensures Emittable(MoveResult(n, sp, bf, src, dst).value.pieces)
  {
    var c := ClearResult(n, sp, bf, dst).value;
    ClearEmits(n, sp, bf, dst);
    DrainEmits(n, sp, c.bf, src, dst, true);
    EmittableAppend(c.pieces, DrainResult(n, sp, c.bf, src, dst, true).value.pieces);
  }

  lemma {:induction false} CopyEmits(n: int, sp: int, bf: int, t: int, src: Value, dst: Value)
    requires CopyResult(n, sp, bf, t, src, dst).Ok?
    ensures Emittable(CopyResult(n, sp, bf, t, src, dst).value.pieces)
  {
    var s, d, tt := Pos(sp, src), Pos(sp, dst), sp + t;
    ClearPiecesShape(bf, d);
    ClearPiecesShape(d, tt);
    CopyLoopPiecesShape(tt, s, d, tt);
    DrainPiecesShape(s, tt, s, true);
    EmittableAppend3(ClearPieces(bf, d), ClearPieces(d, tt), CopyLoopPieces(tt, s, d, tt));
    EmittableAppend(ClearPieces(bf, d) + ClearPieces(d, tt) + CopyLoopPieces(tt, s, d, tt), DrainPieces(s, tt, s, true));
  }

  lemma {:induction false} StackArithEmits(n: int, sp: int, bf: int, cells: set<int>, src: Value, dst: Value, add: bool)
    requires StackArithResult(n, sp, bf, cells, src, dst, add).Ok?
    ensures Emittable(StackArithResult(n, sp, bf, cells, src, dst, add).value.pieces)
  {
    var t0 := LeastFree(cells);
    var t1 := LeastFree(cells + {t0});
    var cp := CopyResult(n, sp, bf, t1, src, AddressOf(t0)).value;
    CopyEmits(n, sp, bf, t1, src, AddressOf(t0));
    DrainEmits(n, sp, cp.bf, AddressOf(t0), dst, add);
    EmittableAppend(cp.pieces, DrainResult(n, sp, cp.bf, AddressOf(t0), dst, add).value.pieces);
  }

  lemma {:induction false} LogicalEmits(n: int, sp: int, bf: int, cells: set<int>, src: Value, dst: Value, isNot: bool)
    requires LogicalResult(n, sp, bf, cells, src, dst, isNot).Ok?
    ensures Emittable(LogicalResult(n, sp, bf, cells, src, dst, isNot).value.pieces)
  {
    var t0 := LeastFree(cells);
    var t1 := LeastFree(cells + {t0});
    var cp := CopyResult(n, sp, bf, t1, src, AddressOf(t0)).value;
    var cl := ClearResult(n, sp, cp.bf, dst).value;
    var lp := NormLoopPieces(cl.bf, sp + t0, !isNot);
    var set1: seq<Piece> := if isNot then [Move(0), Inc(1)] else [];
    assert LogicalResult(n, sp, bf, cells, src, dst, isNot).value.pieces == cp.pieces + cl.pieces + set1 + lp;
    CopyEmits(n, sp, bf, t1, src, AddressOf(t0));
    ClearEmits(n, sp, cp.bf, dst);
    NormLoopPiecesShape(cl.bf, sp + t0, !isNot);
    PlainEmittable(set1);
    EmittableAppend3(cp.pieces, cl.pieces, set1);
    EmittableAppend(cp.pieces + cl.pieces + set1, lp);
  }

  lemma {:induction false} AccumulateEmits(n: int, sp: int, bf: int, c: set<int>, x: Value, tmp: Value, dst: Value, isOr: bool)
    requires AccumulateResult(n, sp, bf, c, x, tmp, dst, isOr).Ok?
    ensures Emittable(AccumulateResult(n, sp, bf, c, x, tmp, dst, isOr).value.pieces)
  {
    var r1 := LogicalResult(n, sp, bf, c, x, tmp, !isOr).value;
    LogicalEmits(n, sp, bf, c, x, tmp, !isOr);
    StackArithEmits(n, sp, r1.bf, c, tmp, dst, true);
    EmittableAppend(r1.pieces, StackArithResult(n, sp, r1.bf, c, tmp, dst, true).value.pieces);
  }

  lemma {:induction false} LogicalPairBodyEmits(n: int, sp: int, bf: int, c: set<int>, tmp: Value, a: Value, b: Value, dst: Value, isOr: bool)
    requires LogicalPairBody(n, sp, bf, c, tmp, a, b, dst, isOr).Ok?
    ensures Emittable(LogicalPairBody(n, sp, bf, c, tmp, a, b, dst, isOr).value.pieces)
  {
    var r0 := ClearResult(n, sp, bf, dst).value;
    var r1 := AccumulateResult(n, sp, r0.bf, c, a, tmp, dst, isOr).value;
    var r2 := AccumulateResult(n, sp, r1.bf, c, b, tmp, dst, isOr).value;
    var r3 := LogicalResult(n, sp, r2.bf, c, dst, tmp, !isOr).value;
    var r4 := MoveResult(n, sp, r3.bf, tmp, dst).value;
    ClearEmits(n, sp, bf, dst);
    AccumulateEmits(n, sp, r0.bf, c, a, tmp, dst, isOr);
    AccumulateEmits(n, sp, r1.bf, c, b, tmp, dst, isOr);
    LogicalEmits(n, sp, r2.bf, c, dst, tmp, !isOr);
    MoveEmits(n, sp, r3.bf, tmp, dst);
    EmittableAppend3(r0.pieces, r1.pieces, r2.pieces);
    EmittableAppend3(r0.pieces + r1.pieces + r2.pieces, r3.pieces, r4.pieces);
  }

  lemma {:induction false} LogicalPairEmits(n: int, sp: int, bf: int, cells: set<int>, a: Value, b: Value, dst: Value, isOr: bool)
    requires LogicalPairResult(n, sp, bf, cells, a, b, dst, isOr).Ok?
    ensures Emittable(LogicalPairResult(n, sp, bf, cells, a, b, dst, isOr).value.pieces)
  {
    var t0 := LeastFree(cells);
    LogicalPairBodyEmits(n, sp, bf, cells + {t0}, AddressOf(t0), a, b, dst, isOr);
  }

  lemma {:induction false} ConstantEmits(n: int, sp: int, bf: int, src: Value, dst: Value, add: bool)
    requires ConstantResult(n, sp, bf, src, dst, add).Ok?
    ensures Emittable(ConstantResult(n, sp, bf, src, dst, add).value.pieces)
  {
    PlainEmittable(ConstantResult(n, sp, bf, src, dst, add).value.pieces);
  }

  lemma {:induction false} PutStringEmits(n: int, sp: int, bf: int, cells: set<int>, sc: Value)
    requires PutStringResult(n, sp, bf, cells, sc).Ok?
    ensures Emittable(PutStringResult(n, sp, bf, cells, sc).value.pieces)
  {
    var s := MatchStringConstant(sc).value;
    ClearEmits(n, sp, bf, AddressOf(LeastFree(cells)));
    RunPiecesShape(s);
    PlainEmittable(RunPieces(s));
    EmittableAppend(ClearResult(n, sp, bf, AddressOf(LeastFree(cells))).value.pieces, RunPieces(s));
  }

  /** An input/output step at an address: a single `,` or `.` after the move. */
  lemma {:induction false} AtEmits(n: int, sp: int, bf: int, a: Value, p: Piece)
    requires AtResult(n, sp, bf, a, p).Ok? && Plain(p)
    ensures Emittable(AtResult(n, sp, bf, a, p).value.pieces)
  {
    PlainEmittable(AtResult(n, sp, bf, a, p).value.pieces);
  }

  // ---------------------------------------------------------------------------
  // Properties of the text stated by the library

  /** `put_string_constant` prints each character exactly once, stepping from the previous code. */
  lemma {:induction false} RunPiecesWrites(s: string)
    ensures Writes(RunPieces(s)) == |s|
    decreases |s|
  {
    if s != [] {
      var prefix := s[..|s| - 1];
      var d := DeltaPieces(s[|s| - 1] as int - LastCode(prefix));
      RunPiecesWrites(prefix);
      WritesAppend(RunPieces(prefix) + d, [Write]);
      WritesAppend(RunPieces(prefix), d);
      assert Writes([Write]) == 1 by { assert [Write][..0] == []; }
    }
  }

  /** The number of `.` pieces. */
  function Writes(ps: seq<Piece>): nat
  {
    if ps == [] then 0 else Writes(ps[..|ps| - 1]) + (if ps[|ps| - 1].Write? then 1 else 0)
  }

  lemma {:induction false} WritesAppend(a: seq<Piece>, b: seq<Piece>)
    ensures Writes(a + b) == Writes(a) + Writes(b)
    decreases |b|
  {
    if b == [] {
      assert a + b == a;
    } else {
      assert (a + b)[..|a + b| - 1] == a + b[..|b| - 1];
      WritesAppend(a, b[..|b| - 1]);
    }
  }

  /** The library's own example: "AB" prints as 65 `+`, `.`, one `+`, `.`. */
  lemma {:induction false} RunPiecesAB()
    ensures RunPieces("AB") == [Inc(65), Write, Inc(1), Write]
    ensures Text(RunPieces("AB")) == Rep('+', 65) + "." + "+" + "."
  {
    assert "AB"[..1] == "A";
    assert "A"[..0] == "";
    assert RunPieces("A") == [Inc(65), Write];
    var ps := [Inc(65), Write, Inc(1), Write];
    assert ps == [Inc(65), Write, Inc(1)] + [Write];
    assert [Inc(65), Write, Inc(1)] == [Inc(65), Write] + [Inc(1)];
    assert [Inc(65), Write] == [Inc(65)] + [Write];
    TextSnoc([Inc(65), Write, Inc(1)], Write);
    TextSnoc([Inc(65), Write], Inc(1));
    TextSnoc([Inc(65)], Write);
    TextSingle(Inc(65));
    assert Rep('+', 1) == "+";
  }
}
