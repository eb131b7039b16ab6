/**
 * Code generation: the tagged-pair helpers for stack addresses and constants,
 * and the tape machine that emits Brainfuck while tracking where the data
 * pointer is relative to the current stack frame.
 */
module Codegen {
  import opened Wrappers
  import opened PatternMatch
  import opened Opcodes

  // ---------------------------------------------------------------------------
  // Tagged pairs

  /** `('stack_address', offset)`. */
  function MakeStackAddress(offset: int): (r: Value)
    ensures IsStackAddress(r) && MatchStackAddress(r) == Ok(offset)
  {
    Seq([Str("stack_address"), Int(offset)])
  }

  /** A pair tagged `stack_address` whose payload is an integer. */
  predicate IsStackAddress(x: Value)
  {
    x.Seq? && |x.items| == 2 && x.items[0] == Str("stack_address") && x.items[1].Int?
  }

  function MatchStackAddress(x: Value): Result<int>
  {
    if IsStackAddress(x) then Ok(x.items[1].i) else Err(Malformed)
  }

  /** The offset of an address, for use in contracts. */
  function OffsetOf(x: Value): int
    requires IsStackAddress(x)
  {
    x.items[1].i
  }

  /** Every stack address is the one built from its own offset. */
  lemma {:induction false} StackAddressRoundTrip(x: Value)
    ensures MatchStackAddress(x).Ok? <==> IsStackAddress(x)
    ensures MatchStackAddress(x).Ok? ==> MakeStackAddress(MatchStackAddress(x).value) == x
  {
    if IsStackAddress(x) {
      assert x.items == [Str("stack_address"), Int(x.items[1].i)];
    }
  }

  /** `('int_constant', x)`. */
  function MakeConstant(x: int): (r: Value)
    ensures IsConstant(r) && MatchConstant(r) == Ok(x)
  {
    Seq([Str("int_constant"), Int(x)])
  }

  predicate IsConstant(x: Value)
  {
    x.Seq? && |x.items| == 2 && x.items[0] == Str("int_constant") && x.items[1].Int?
  }

  function MatchConstant(x: Value): Result<int>
  {
    if IsConstant(x) then Ok(x.items[1].i) else Err(Malformed)
  }

  lemma {:induction false} ConstantRoundTrip(x: Value)
    ensures MatchConstant(x).Ok? <==> IsConstant(x)
    ensures MatchConstant(x).Ok? ==> MakeConstant(MatchConstant(x).value) == x
  {
    if IsConstant(x) {
      assert x.items == [Str("int_constant"), Int(x.items[1].i)];
    }
  }

  /** `('string_constant', s)`. */
  function MakeStringConstant(s: string): (r: Value)
    ensures IsStringConstant(r) && MatchStringConstant(r) == Ok(s)
  {
    Seq([Str("string_constant"), Str(s)])
  }

  predicate IsStringConstant(x: Value)
  {
    x.Seq? && |x.items| == 2 && x.items[0] == Str("string_constant") && x.items[1].Str?
  }

  function MatchStringConstant(x: Value): Result<string>
  {
    if IsStringConstant(x) then Ok(x.items[1].s) else Err(Malformed)
  }

  lemma {:induction false} StringConstantRoundTrip(x: Value)
    ensures MatchStringConstant(x).Ok? <==> IsStringConstant(x)
    ensures MatchStringConstant(x).Ok? ==> MakeStringConstant(MatchStringConstant(x).value) == x
  {
    if IsStringConstant(x) {
      assert x.items == [Str("string_constant"), Str(x.items[1].s)];
    }
  }

  // ---------------------------------------------------------------------------
  // Aliasing

  /** `map(match_stack_address, args)`: the first malformed operand aborts. */
  function Offsets(args: seq<Value>): (r: Result<seq<int>>)
    ensures r.Ok? <==> forall i :: 0 <= i < |args| ==> IsStackAddress(args[i])
    ensures r.Ok? ==> |r.value| == |args| && forall i :: 0 <= i < |args| ==> r.value[i] == OffsetOf(args[i])
    ensures r.Err? ==> r.error == Malformed
  {
    if args == [] then Ok([])
    else
      var x :- MatchStackAddress(args[0]);
      var rest :- Offsets(args[1..]);
      Ok([x] + rest)
  }

  ghost predicate Distinct(s: seq<int>)
  {
    forall i, j :: 0 <= i < j < |s| ==> s[i] != s[j]
  }

  function Elements(s: seq<int>): set<int>
  {
    set x | x in s
  }

  /** `assert_no_aliasing`: the operands are stack addresses whose offsets are pairwise different. */
  function NoAliasing(args: seq<Value>): Outcome
  {
    match Offsets(args)
    case Err(e) => Fail(e)
    case Ok(offs) => if |Elements(offs)| == |offs| then Pass else Fail(Aliasing)
  }

  /** The set of a sequence is as large as the sequence exactly when no element repeats. */
  lemma {:induction false} ElementsDistinct(s: seq<int>)
    ensures |Elements(s)| <= |s|
    ensures |Elements(s)| == |s| <==> Distinct(s)
    decreases |s|
  {
    if s != [] {
      var init, last := s[..|s| - 1], s[|s| - 1];
      ElementsDistinct(init);
      assert s == init + [last];
      assert Elements(s) == Elements(init) + {last};
      DistinctSnoc(init, last);
      if last in init {
        assert Elements(s) == Elements(init);
      } else {
        assert |Elements(s)| == |Elements(init)| + 1;
      }
    }
  }

  /** A sequence extended by one element repeats nothing exactly when the prefix does not and lacks that element. */
  lemma {:induction false} DistinctSnoc(init: seq<int>, last: int)
    ensures Distinct(init + [last]) <==> Distinct(init) && last !in init
  {
    var s := init + [last];
    if Distinct(init) && last !in init {
      forall i, j | 0 <= i < j < |s| ensures s[i] != s[j] {
        if j == |s| - 1 { assert s[i] in init; } else { assert s[i] == init[i] && s[j] == init[j]; }
      }
    }
    if !Distinct(init) {
      var i, j :| 0 <= i < j < |init| && init[i] == init[j];
      assert s[i] == s[j];
    }
    if last in init {
      var i :| 0 <= i < |init| && init[i] == last;
      assert s[i] == s[|s| - 1];
    }
  }

  /** Two operands share an offset exactly when `assert_no_aliasing` fails on them. */
  lemma {:induction false} NoAliasingSpec(args: seq<Value>)
    ensures NoAliasing(args) == Pass <==>
      (forall i :: 0 <= i < |args| ==> IsStackAddress(args[i])) &&
      (forall i, j :: 0 <= i < j < |args| ==> OffsetOf(args[i]) != OffsetOf(args[j]))
    ensures NoAliasing(args) == Fail(Malformed) <==> exists i :: 0 <= i < |args| && !IsStackAddress(args[i])
  {
    if Offsets(args).Ok? {
      var offs := Offsets(args).value;
      ElementsDistinct(offs);
      if Distinct(offs) {
        forall i, j | 0 <= i < j < |args| ensures OffsetOf(args[i]) != OffsetOf(args[j]) {
          assert offs[i] != offs[j];
        }
      } else {
        var i, j :| 0 <= i < j < |offs| && offs[i] == offs[j];
        assert OffsetOf(args[i]) == OffsetOf(args[j]);
      }
    }
  }

  /** `assert_no_aliasing(a, b)`. */
  lemma {:induction false} NoAliasingPair(a: Value, b: Value)
    ensures NoAliasing([a, b]) ==
      if !IsStackAddress(a) || !IsStackAddress(b) then Fail(Malformed)
      else if OffsetOf(a) == OffsetOf(b) then Fail(Aliasing)
      else Pass
  {
    NoAliasingSpec([a, b]);
    assert [a, b][0] == a && [a, b][1] == b;
    if !IsStackAddress(a) {
      assert !IsStackAddress([a, b][0]);
    } else if !IsStackAddress(b) {
      assert !IsStackAddress([a, b][1]);
    }
  }

  /** `assert_no_aliasing(a, b, c)`. */
  lemma {:induction false} NoAliasingTriple(a: Value, b: Value, c: Value)
    ensures NoAliasing([a, b, c]) ==
      if !IsStackAddress(a) || !IsStackAddress(b) || !IsStackAddress(c) then Fail(Malformed)
      else if OffsetOf(a) == OffsetOf(b) || OffsetOf(a) == OffsetOf(c) || OffsetOf(b) == OffsetOf(c) then Fail(Aliasing)
      else Pass
  {
    var args := [a, b, c];
    NoAliasingSpec(args);
    assert args[0] == a && args[1] == b && args[2] == c;
    if !IsStackAddress(a) {
      assert !IsStackAddress(args[0]);
    } else if !IsStackAddress(b) {
      assert !IsStackAddress(args[1]);
    } else if !IsStackAddress(c) {
      assert !IsStackAddress(args[2]);
    }
  }

  // ---------------------------------------------------------------------------
  // The tape machine

  /** What `do_move(k)` appends: `k` copies of `>` to the right, `-k` copies of `<` to the left. */
  function MoveCode(k: int): string
  {
    if k >= 0 then Rep('>', k) else Rep('<', -k)
  }

  /** `do_move(k)` spells exactly `|k|` arrows pointing the way of `k`. */
  lemma {:induction false} MoveCodeShape(k: int)
    ensures |MoveCode(k)| == (if k >= 0 then k else -k)
    ensures forall i :: 0 <= i < |MoveCode(k)| ==> MoveCode(k)[i] == (if k > 0 then '>' else '<')
    ensures AllOpcodes(MoveCode(k)) && BracketFree(MoveCode(k))
  {
  }

  /**
   * One entry of the machine's code list: the chunk a single machine
   * operation appends. A move or count of zero is kept as a piece that
   * spells nothing, where the machine appends nothing; the joined text is
   * the same.
   */
  datatype Piece = Move(offset: int) | Inc(n: nat) | Dec(n: nat) | Open | Close | Read | Write | Raw(ops: string)

  /** The text of one chunk. */
  function PieceText(p: Piece): string
  {
    match p
    case Move(k) => MoveCode(k)
    case Inc(n) => Rep('+', n)
    case Dec(n) => Rep('-', n)
    case Open => "["
    case Close => "]"
    case Read => ","
    case Write => "."
    case Raw(ops) => ops
  }

  /** A validated piece spells instructions only, and brackets only for `Open` and `Close`. */
  lemma {:induction false} PieceOpcodes(p: Piece)
    requires !p.Raw?
    ensures AllOpcodes(PieceText(p))
    ensures !p.Open? && !p.Close? ==> BracketFree(PieceText(p))
    ensures p.Open? ==> PieceText(p) == "["
    ensures p.Close? ==> PieceText(p) == "]"
  {
    if p.Move? {
      MoveCodeShape(p.offset);
    }
  }

  /** `''.join(code)`: the emitted program text. */
  function Text(code: seq<Piece>): string
  {
    if code == [] then "" else Text(code[..|code| - 1]) + PieceText(code[|code| - 1])
  }

  /** Joining distributes over concatenation of code lists. */
  lemma {:induction false} TextAppend(a: seq<Piece>, b: seq<Piece>)
    ensures Text(a + b) == Text(a) + Text(b)
    decreases |b|
  {
    if b == [] {
      assert a + b == a;
    } else {
      var b', p := b[..|b| - 1], b[|b| - 1];
      assert b == b' + [p];
      assert a + b == (a + b') + [p];
      TextSnoc(a + b', p);
      TextSnoc(b', p);
      TextAppend(a, b');
      StringAssoc(Text(a), Text(b'), PieceText(p));
    }
  }

  lemma {:induction false} StringAssoc(x: string, y: string, z: string)
    ensures (x + y) + z == x + (y + z)
  {
  }

  lemma {:induction false} TextSnoc(c: seq<Piece>, p: Piece)
    ensures Text(c + [p]) == Text(c) + PieceText(p)
  {
    assert (c + [p])[..|c|] == c;
  }

  lemma {:induction false} TextSingle(p: Piece)
    ensures Text([p]) == PieceText(p)
  {
    assert [p][..0] == [];
  }

  lemma {:induction false} PiecesAssoc(x: seq<Piece>, y: seq<Piece>, z: seq<Piece>)
    ensures (x + y) + z == x + (y + z)
  {
  }

  // The machine appends piece by piece; these regroup what was appended in
  // two, three or four steps into one run.

  lemma {:induction false} Chain2(c0: seq<Piece>, c1: seq<Piece>, c2: seq<Piece>, x1: seq<Piece>, x2: seq<Piece>)
    requires c1 == c0 + x1 && c2 == c1 + x2
    ensures c2 == c0 + (x1 + x2)
  {
    PiecesAssoc(c0, x1, x2);
  }

  lemma {:induction false} Chain3(c0: seq<Piece>, c1: seq<Piece>, c2: seq<Piece>, c3: seq<Piece>, x1: seq<Piece>, x2: seq<Piece>, x3: seq<Piece>)
    requires c1 == c0 + x1 && c2 == c1 + x2 && c3 == c2 + x3
    ensures c3 == c0 + (x1 + x2 + x3)
  {
    Chain2(c0, c1, c2, x1, x2);
    PiecesAssoc(c0, x1 + x2, x3);
  }

  lemma {:induction false} Chain4(c0: seq<Piece>, c1: seq<Piece>, c2: seq<Piece>, c3: seq<Piece>, c4: seq<Piece>,
               x1: seq<Piece>, x2: seq<Piece>, x3: seq<Piece>, x4: seq<Piece>)
    requires c1 == c0 + x1 && c2 == c1 + x2 && c3 == c2 + x3 && c4 == c3 + x4
    ensures c4 == c0 + (x1 + x2 + x3 + x4)
  {
    Chain3(c0, c1, c2, c3, x1, x2, x3);
    PiecesAssoc(c0, x1 + x2 + x3, x4);
  }

  lemma {:induction false} Chain5(c0: seq<Piece>, c1: seq<Piece>, c2: seq<Piece>, c3: seq<Piece>, c4: seq<Piece>, c5: seq<Piece>,
               x1: seq<Piece>, x2: seq<Piece>, x3: seq<Piece>, x4: seq<Piece>, x5: seq<Piece>)
    requires c1 == c0 + x1 && c2 == c1 + x2 && c3 == c2 + x3 && c4 == c3 + x4 && c5 == c4 + x5
    ensures c5 == c0 + (x1 + x2 + x3 + x4 + x5)
  {
    Chain4(c0, c1, c2, c3, c4, x1, x2, x3, x4);
    PiecesAssoc(c0, x1 + x2 + x3 + x4, x5);
  }

  /**
   * What the machine keeps true of its emitted code: only the eight
   * instructions, no loop closed that was not opened, and `depth` loops open.
   */
  ghost predicate ValidCode(code: string, depth: int)
  {
    AllOpcodes(code) && Wellbracketed(code) && Depth(code) == depth
  }

  /** Moves, increments, decrements, reads and writes keep the code valid at the same depth. */
  lemma {:induction false} PlainKeepsValid(code: string, depth: int, s: string)
    requires ValidCode(code, depth) && AllOpcodes(s) && BracketFree(s)
    ensures ValidCode(code + s, depth)
  {
    assert Depth(code) >= 0 by { assert code[..|code|] == code; }
    BracketFreeStaysOpen(Depth(code), s);
    WellbracketedAppend(code, s);
    AllOpcodesAppend(code, s);
    BracketFreeDepth(s);
  }

  /** Opening a loop keeps the code valid, one level deeper. */
  lemma {:induction false} OpenKeepsValid(code: string, depth: int)
    requires ValidCode(code, depth)
    ensures ValidCode(code + "[", depth + 1)
  {
    assert Depth(code) >= 0 by { assert code[..|code|] == code; }
    OpenStaysOpen(Depth(code));
    WellbracketedAppend(code, "[");
    AllOpcodesAppend(code, "[");
  }

  /** Closing a loop keeps the code valid exactly when one is open. */
  lemma {:induction false} CloseKeepsValid(code: string, depth: int)
    requires ValidCode(code, depth)
    ensures ValidCode(code + "]", depth - 1) <==> depth >= 1
  {
    if depth >= 1 {
      CloseStaysOpen(Depth(code));
      WellbracketedAppend(code, "]");
      AllOpcodesAppend(code, "]");
    } else {
      assert Depth(code) >= 0 by { assert code[..|code|] == code; }
      DepthAppend(code, "]");
      assert "]"[..|"]"| - 1] == [];
      assert Depth(code + "]") == -1;
      assert (code + "]")[..|code + "]"|] == code + "]";
    }
  }

  /** The loop depth a validated piece leaves open: one more for `[`, one fewer for `]`. */
  function DepthChange(p: Piece): int
  {
    if p.Open? then 1 else if p.Close? then -1 else 0
  }

  /**
   * Appending any validated piece keeps the code list valid, with the loop
   * depth changed by that piece; a `]` needs an open loop, and with none
   * open the result is never valid.
   */
  lemma {:induction false} PieceKeepsValid(code: seq<Piece>, depth: int, p: Piece)
    requires ValidCode(Text(code), depth) && !p.Raw?
    ensures ValidCode(Text(code + [p]), depth + DepthChange(p)) <==> (p.Close? ==> depth >= 1)
  {
    TextAppend(code, [p]);
    TextSingle(p);
    if p.Open? {
      OpenKeepsValid(Text(code), depth);
    } else if p.Close? {
      CloseKeepsValid(Text(code), depth);
    } else {
      PieceOpcodes(p);
      PlainKeepsValid(Text(code), depth, PieceText(p));
    }
  }

  /** `validate`: the data pointer lies on the tape. */
  function Bounds(nCells: int, p: int): Outcome
  {
    if 0 <= p < nCells then Pass else Fail(OutOfRange)
  }

  class Machine {
    const nCells: int
    var bfPtr: int
    var stackPtr: int
    var code: seq<Piece>
    var loopStack: seq<int>

    /** One open loop in the code per entry of the loop stack. */
    ghost predicate Valid()
      reads this
    {
      ValidCode(Text(code), |loopStack|)
    }

    constructor (nCells: int)
      ensures this.nCells == nCells && bfPtr == 0 && stackPtr == 0 && code == [] && loopStack == []
      ensures Valid()
    {
      this.nCells := nCells;
      bfPtr := 0;
      stackPtr := 0;
      code := [];
      loopStack := [];
      new;
      assert Text(code)[..0] == [];
    }

    /** `get_bf_ptr_relative_to_stack`. */
    function RelativePtr(): int
      reads this
    {
      bfPtr - stackPtr
    }

    /** `do_move(offset)`: `offset` steps right (or `-offset` left), then the bounds check. */
    method DoMove(offset: int) returns (o: Outcome)
      modifies this
      ensures code == old(code) + [Move(offset)]
      ensures bfPtr == old(bfPtr) + offset
      ensures stackPtr == old(stackPtr) && loopStack == old(loopStack)
      ensures o == Bounds(nCells, bfPtr)
    {
      code := code + [Move(offset)];
      bfPtr := bfPtr + offset;
      o := Bounds(nCells, bfPtr);
    }

    /** `do_move_to_stack_address`: move to frame base plus the address's offset. */
    method DoMoveToStackAddress(a: Value) returns (o: Outcome)
      modifies this
      ensures !IsStackAddress(a) ==>
        o == Fail(Malformed) && code == old(code) && bfPtr == old(bfPtr)
      ensures IsStackAddress(a) ==>
        code == old(code) + [Move(old(stackPtr) + OffsetOf(a) - old(bfPtr))] &&
        bfPtr == old(stackPtr) + OffsetOf(a) && o == Bounds(nCells, bfPtr)
      ensures stackPtr == old(stackPtr) && loopStack == old(loopStack)
    {
      if !IsStackAddress(a) {
        return Fail(Malformed);
      }
      o := DoMove(stackPtr + OffsetOf(a) - bfPtr);
    }

    method DoLeft() returns (o: Outcome)
      modifies this
      ensures code == old(code) + [Move(-1)] && bfPtr == old(bfPtr) - 1
      ensures stackPtr == old(stackPtr) && loopStack == old(loopStack)
      ensures o == Bounds(nCells, bfPtr)
    {
      o := DoMove(-1);
    }

    method DoRight() returns (o: Outcome)
      modifies this
      ensures code == old(code) + [Move(1)] && bfPtr == old(bfPtr) + 1
      ensures stackPtr == old(stackPtr) && loopStack == old(loopStack)
      ensures o == Bounds(nCells, bfPtr)
    {
      o := DoMove(1);
    }

    /** `do_inc(n)`: `n` must not be negative. */
    method DoInc(n: int) returns (o: Outcome)
      modifies this
      ensures n < 0 ==> o == Fail(NegativeCount) && code == old(code)
      ensures n >= 0 ==> code == old(code) + [Inc(n)] && o == Bounds(nCells, bfPtr)
      ensures bfPtr == old(bfPtr) && stackPtr == old(stackPtr) && loopStack == old(loopStack)
    {
      if n < 0 {
        return Fail(NegativeCount);
      }
      code := code + [Inc(n)];
      o := Bounds(nCells, bfPtr);
    }

    /** `do_dec(n)`: `n` must not be negative. */
    method DoDec(n: int) returns (o: Outcome)
      modifies this
      ensures n < 0 ==> o == Fail(NegativeCount) && code == old(code)
      ensures n >= 0 ==> code == old(code) + [Dec(n)] && o == Bounds(nCells, bfPtr)
      ensures bfPtr == old(bfPtr) && stackPtr == old(stackPtr) && loopStack == old(loopStack)
    {
      if n < 0 {
        return Fail(NegativeCount);
      }
      code := code + [Dec(n)];
      o := Bounds(nCells, bfPtr);
    }

    /** `do_begin_loop`: open a loop and remember where, relative to the frame, it was opened. */
    method DoBeginLoop() returns (o: Outcome)
      modifies this
      ensures code == old(code) + [Open]
      ensures loopStack == old(loopStack) + [old(bfPtr) - old(stackPtr)]
      ensures bfPtr == old(bfPtr) && stackPtr == old(stackPtr)
      ensures o == Bounds(nCells, bfPtr)
    {
      code := code + [Open];
      loopStack := loopStack + [RelativePtr()];
      o := Bounds(nCells, bfPtr);
    }

    /**
     * `do_end_loop`: close a loop; the loop must have been opened at the same
     * position relative to the frame, so every path through the loop leaves
     * the data pointer where it was.
     */
    method DoEndLoop() returns (o: Outcome)
      modifies this
      ensures code == old(code) + [Close]
      ensures old(loopStack) == [] ==> o == Fail(EmptyLoopStack) && loopStack == []
      ensures old(loopStack) != [] ==>
        loopStack == old(loopStack)[..|old(loopStack)| - 1] &&
        o == (if old(loopStack)[|old(loopStack)| - 1] == old(bfPtr) - old(stackPtr) then Bounds(nCells, bfPtr) else Fail(LoopImbalance))
      ensures bfPtr == old(bfPtr) && stackPtr == old(stackPtr)
    {
      code := code + [Close];
      if loopStack == [] {
        return Fail(EmptyLoopStack);
      }
      var top := loopStack[|loopStack| - 1];
      loopStack := loopStack[..|loopStack| - 1];
      if top != RelativePtr() {
        return Fail(LoopImbalance);
      }
      o := Bounds(nCells, bfPtr);
    }

    method DoRead() returns (o: Outcome)
      modifies this
      ensures code == old(code) + [Read]
      ensures bfPtr == old(bfPtr) && stackPtr == old(stackPtr) && loopStack == old(loopStack)
      ensures o == Bounds(nCells, bfPtr)
    {
      code := code + [Read];
      o := Bounds(nCells, bfPtr);
    }

    method DoWrite() returns (o: Outcome)
      modifies this
      ensures code == old(code) + [Write]
      ensures bfPtr == old(bfPtr) && stackPtr == old(stackPtr) && loopStack == old(loopStack)
      ensures o == Bounds(nCells, bfPtr)
    {
      code := code + [Write];
      o := Bounds(nCells, bfPtr);
    }

    /**
     * `do_unvalidated_bf`: raw instructions, checked one character at a time
     * against the alphabet before anything is appended; neither the pointer
     * bounds nor the loop stack are consulted.
     */
    method DoUnvalidatedBf(ops: string) returns (o: Outcome)
      modifies this
      ensures o == (if AllOpcodes(ops) then Pass else Fail(BadOpcode))
      ensures code == (if AllOpcodes(ops) then old(code) + [Raw(ops)] else old(code))
      ensures bfPtr == old(bfPtr) && stackPtr == old(stackPtr) && loopStack == old(loopStack)
    {
      var i := 0;
      while i < |ops|
        invariant 0 <= i <= |ops|
        invariant forall j :: 0 <= j < i ==> IsOpcode(ops[j])
      {
        if !IsOpcode(ops[i]) {
          return Fail(BadOpcode);
        }
        i := i + 1;
      }
      code := code + [Raw(ops)];
      o := Pass;
    }
  }

  /**
   * Whatever the machine appends is instruction text: every piece a machine
   * operation can append, including a raw run that passed its check, keeps
   * the joined code within the alphabet.
   */
  lemma {:induction false} AppendKeepsOpcodes(code: seq<Piece>, p: Piece)
    requires AllOpcodes(Text(code))
    requires p.Raw? ==> AllOpcodes(p.ops)
    ensures AllOpcodes(Text(code + [p]))
  {
    TextAppend(code, [p]);
    TextSingle(p);
    AllOpcodesAppend(Text(code), PieceText(p));
  }
}
