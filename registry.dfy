/**
 * The table of built-in macros and `_invoke_macro`: a name selects a built-in,
 * the built-in is called with the evaluated arguments, and a successful call
 * keeps the machine's code well bracketed against its loop stack.
 */
module Registry {
  import opened Wrappers
  import opened PatternMatch
  import Codegen
  import Allocator
  import BuiltinCode
  import Builtins
  import Frames

  /** The functions registered with `@BUILT_IN_MACRO`. */
  datatype Builtin =
    | Clear | DestructiveAdd | DestructiveSub | Move | Copy
    | StackAdd | ConstantAdd | StackSub | ConstantSub
    | AsLogical | LogicalNot | LogicalOr | LogicalAnd
    | GetChar | PutChar | PutStringConstant
    | BeginLoop | EndLoop | GrowStack | ShrinkStack

  /** The name each built-in is registered under: its Python function name. */
  function Name(b: Builtin): string
  {
    match b
    case Clear => "clear"
    case DestructiveAdd => "destructive_add"
    case DestructiveSub => "destructive_sub"
    case Move => "move"
    case Copy => "copy"
    case StackAdd => "stack_add"
    case ConstantAdd => "constant_add"
    case StackSub => "stack_sub"
    case ConstantSub => "constant_sub"
    case AsLogical => "as_logical"
    case LogicalNot => "logical_not"
    case LogicalOr => "logical_or"
    case LogicalAnd => "logical_and"
    case GetChar => "get_char"
    case PutChar => "put_char"
    case PutStringConstant => "put_string_constant"
    case BeginLoop => "begin_loop"
    case EndLoop => "end_loop"
    case GrowStack => "grow_stack"
    case ShrinkStack => "shrink_stack"
  }

  /** The built-ins in the order `@BUILT_IN_MACRO` registers them. */
  const Registered: seq<Builtin> := [
    Clear, DestructiveAdd, DestructiveSub, Move, Copy,
    StackAdd, ConstantAdd, StackSub, ConstantSub,
    AsLogical, LogicalNot, LogicalOr, LogicalAnd,
    GetChar, PutChar, PutStringConstant,
    BeginLoop, EndLoop, GrowStack, ShrinkStack]

  /** The first entry of `Registered[i..]` whose name is `name`, if any. */
  function Find(name: string, i: nat): Result<Builtin>
    decreases |Registered| - i
  {
    if i >= |Registered| then Err(UnknownBuiltin)
    else if Name(Registered[i]) == name then Ok(Registered[i])
    else Find(name, i + 1)
  }

  /** `_BUILT_IN_MACROS[name]`: the built-in registered under `name`; a missing name is an error. */
  function Lookup(name: string): Result<Builtin>
  {
    Find(name, 0)
  }

  /** Every built-in is registered. */
  lemma {:induction false} AllRegistered(b: Builtin)
    ensures b in Registered
  {
  }

  /**
   * A string's length, first and last character packed into one number:
   * `len * 65536 + ord(first) * 256 + ord(last)`.  Character codes of the
   * names are below 256, so each field has its own bytes and equal
   * signatures mean equal lengths and equal end characters.
   */
  function Signature(s: string): int
  {
    if |s| == 0 then 0 else |s| * 65536 + (s[0] as int) * 256 + (s[|s| - 1] as int)
  }

  /**
   * The signature of each registered name, worked out by hand: `clear` is
   * `5 * 65536 + ord('c') * 256 + ord('r')` = 327680 + 25344 + 114 = 353138.
   * `Registry.SignatureOfName` checks every entry against `Signature`.
   */
  function NameSignature(b: Builtin): int
  {
    match b
    case Clear => 353138
    case DestructiveAdd => 1008740
    case DestructiveSub => 1008738
    case Move => 290149
    case Copy => 287609
    case StackAdd => 619364
    case ConstantAdd => 811876
    case StackSub => 619362
    case ConstantSub => 811874
    case AsLogical => 680300
    case LogicalNot => 748660
    case LogicalOr => 683122
    case LogicalAnd => 748644
    case GetChar => 550770
    case PutChar => 553074
    case PutStringConstant => 1273972
    case BeginLoop => 680560
    case EndLoop => 550256
    case GrowStack => 681835
    case ShrinkStack => 815979
  }

  lemma {:induction false} SignatureOfName(b: Builtin)
    ensures Signature(Name(b)) == NameSignature(b)
  {
  }

  /** No two built-ins are registered under the same name. */
  lemma {:induction false} NameInjective(a: Builtin, b: Builtin)
    ensures Name(a) == Name(b) ==> a == b
  {
    SignatureOfName(a);
    SignatureOfName(b);
  }

  /** Searching from an entry at or before `b`'s finds `b` under its name. */
  lemma {:induction false} FindName(b: Builtin, i: nat)
    requires i <= |Registered| && b in Registered[i..]
    ensures Find(Name(b), i) == Ok(b)
    decreases |Registered| - i
  {
    if Registered[i] != b {
      NameInjective(Registered[i], b);
      assert b in Registered[i + 1..];
      FindName(b, i + 1);
    }
  }

  /** Whatever a search finds is registered under the name searched for. */
  lemma {:induction false} NameOfFind(name: string, i: nat)
    ensures Find(name, i).Ok? ==> Name(Find(name, i).value) == name
    ensures Find(name, i).Err? ==> Find(name, i).error == UnknownBuiltin
    decreases |Registered| - i
  {
    if i < |Registered| && Name(Registered[i]) != name {
      NameOfFind(name, i + 1);
    }
  }

  /** A built-in is found under its own name. */
  lemma {:induction false} LookupName(b: Builtin)
    ensures Lookup(Name(b)) == Ok(b)
  {
    AllRegistered(b);
    FindName(b, 0);
  }

  /** Whatever a lookup finds is registered under the name looked up. */
  lemma {:induction false} NameOfLookup(name: string)
    ensures Lookup(name).Ok? ==> Name(Lookup(name).value) == name
  {
    NameOfFind(name, 0);
  }

  /** The table is keyed by name: a lookup finds exactly the built-in registered under that name. */
  lemma {:induction false} LookupIffName(name: string, b: Builtin)
    ensures Lookup(name) == Ok(b) <==> Name(b) == name
  {
    NameOfLookup(name);
    if Name(b) == name {
      LookupName(b);
    }
  }

  /** Every failed lookup reports an unknown built-in. */
  lemma {:induction false} LookupError(name: string)
    ensures Lookup(name).Err? <==> forall b: Builtin :: Name(b) != name
    ensures Lookup(name).Err? ==> Lookup(name).error == UnknownBuiltin
  {
    NameOfFind(name, 0);
    if Lookup(name).Ok? {
      LookupIffName(name, Lookup(name).value);
    } else {
      forall b: Builtin ensures Name(b) != name {
        LookupIffName(name, b);
      }
    }
  }

  /** The number of arguments after `machine` and `stack_man`. */
  function Arity(b: Builtin): nat
  {
    match b
    case Clear | GetChar | PutChar | PutStringConstant | BeginLoop | EndLoop | GrowStack | ShrinkStack => 1
    case LogicalOr | LogicalAnd => 3
    case _ => 2
  }

  /** What a call of `b` with the right number of arguments emits, or the error it stops with. */
  ghost function BuiltinResult(n: int, sp: int, bf: int, stack: seq<int>, cells: set<int>, b: Builtin, args: seq<Value>): Result<BuiltinCode.Emitted>
    requires |args| == Arity(b)
  {
    match b
    case Clear => BuiltinCode.ClearResult(n, sp, bf, args[0])
    case DestructiveAdd => BuiltinCode.DrainResult(n, sp, bf, args[0], args[1], true)
    case DestructiveSub => BuiltinCode.DrainResult(n, sp, bf, args[0], args[1], false)
    case Move => BuiltinCode.MoveResult(n, sp, bf, args[0], args[1])
    case Copy => BuiltinCode.CopyResult(n, sp, bf, Allocator.LeastFree(cells), args[0], args[1])
    case StackAdd => BuiltinCode.StackArithResult(n, sp, bf, cells, args[0], args[1], true)
    case ConstantAdd => BuiltinCode.ConstantResult(n, sp, bf, args[0], args[1], true)
    case StackSub => BuiltinCode.StackArithResult(n, sp, bf, cells, args[0], args[1], false)
    case ConstantSub => BuiltinCode.ConstantResult(n, sp, bf, args[0], args[1], false)
    case AsLogical => BuiltinCode.LogicalResult(n, sp, bf, cells, args[0], args[1], false)
    case LogicalNot => BuiltinCode.LogicalResult(n, sp, bf, cells, args[0], args[1], true)
    case LogicalOr => BuiltinCode.LogicalPairResult(n, sp, bf, cells, args[0], args[1], args[2], true)
    case LogicalAnd => BuiltinCode.LogicalPairResult(n, sp, bf, cells, args[0], args[1], args[2], false)
    case GetChar => BuiltinCode.AtResult(n, sp, bf, args[0], Codegen.Read)
    case PutChar => BuiltinCode.AtResult(n, sp, bf, args[0], Codegen.Write)
    case PutStringConstant => BuiltinCode.PutStringResult(n, sp, bf, cells, args[0])
    case BeginLoop => BuiltinCode.AtResult(n, sp, bf, args[0], Codegen.Open)
    case EndLoop => BuiltinCode.EndLoopResult(n, sp, bf, stack, args[0])
    case GrowStack => Frames.GrowResult(n, sp, bf, cells, args[0])
    case ShrinkStack => Frames.ShrinkResult(n, sp, bf, cells, args[0])
  }

  /** The loop stack after a successful call: only `begin_loop` and `end_loop` touch it. */
  function LoopEffect(b: Builtin, args: seq<Value>, stack: seq<int>): seq<int>
  {
    match b
    case BeginLoop => if |args| == 1 && Codegen.IsStackAddress(args[0]) then stack + [Codegen.OffsetOf(args[0])] else stack
    case EndLoop => if stack != [] then stack[..|stack| - 1] else stack
    case _ => stack
  }

  /** The frame base after a successful call: only `grow_stack` and `shrink_stack` move it. */
  function FrameEffect(b: Builtin, args: seq<Value>, sp: int): int
  {
    match b
    case GrowStack => if |args| == 1 && Frames.FrameSize(args[0]).Ok? then sp + Frames.FrameSize(args[0]).value else sp
    case ShrinkStack => if |args| == 1 && Frames.FrameSize(args[0]).Ok? then sp - Frames.FrameSize(args[0]).value else sp
    case _ => sp
  }

  // ---------------------------------------------------------------------------
  // Successful calls keep the code valid

  /** Every built-in other than the two loop delimiters emits balanced, raw-free pieces. */
  lemma {:induction false} BuiltinEmits(n: int, sp: int, bf: int, stack: seq<int>, cells: set<int>, b: Builtin, args: seq<Value>)
    requires |args| == Arity(b) && !b.BeginLoop? && !b.EndLoop?
    requires BuiltinResult(n, sp, bf, stack, cells, b, args).Ok?
    ensures BuiltinCode.Emittable(BuiltinResult(n, sp, bf, stack, cells, b, args).value.pieces)
  {
    match b
    case Clear => BuiltinCode.ClearEmits(n, sp, bf, args[0]);
    case DestructiveAdd => BuiltinCode.DrainEmits(n, sp, bf, args[0], args[1], true);
    case DestructiveSub => BuiltinCode.DrainEmits(n, sp, bf, args[0], args[1], false);
    case Move => BuiltinCode.MoveEmits(n, sp, bf, args[0], args[1]);
    case Copy => BuiltinCode.CopyEmits(n, sp, bf, Allocator.LeastFree(cells), args[0], args[1]);
    case StackAdd => BuiltinCode.StackArithEmits(n, sp, bf, cells, args[0], args[1], true);
    case ConstantAdd => BuiltinCode.ConstantEmits(n, sp, bf, args[0], args[1], true);
    case StackSub => BuiltinCode.StackArithEmits(n, sp, bf, cells, args[0], args[1], false);
    case ConstantSub => BuiltinCode.ConstantEmits(n, sp, bf, args[0], args[1], false);
    case AsLogical => BuiltinCode.LogicalEmits(n, sp, bf, cells, args[0], args[1], false);
    case LogicalNot => BuiltinCode.LogicalEmits(n, sp, bf, cells, args[0], args[1], true);
    case LogicalOr => BuiltinCode.LogicalPairEmits(n, sp, bf, cells, args[0], args[1], args[2], true);
    case LogicalAnd => BuiltinCode.LogicalPairEmits(n, sp, bf, cells, args[0], args[1], args[2], false);
    case GetChar => BuiltinCode.AtEmits(n, sp, bf, args[0], Codegen.Read);
    case PutChar => BuiltinCode.AtEmits(n, sp, bf, args[0], Codegen.Write);
    case PutStringConstant => BuiltinCode.PutStringEmits(n, sp, bf, cells, args[0]);
    case GrowStack => Frames.GrowEmits(n, sp, bf, cells, args[0]);
    case ShrinkStack => Frames.ShrinkEmits(n, sp, bf, cells, args[0]);
  }

  /** A move followed by one bracket: `[` deepens the code by one, `]` needs an open loop. */
  lemma {:induction false} MoveThenBracket(code: seq<Codegen.Piece>, depth: int, offset: int, p: Codegen.Piece, ps: seq<Codegen.Piece>, after: int)
    requires Codegen.ValidCode(Codegen.Text(code), depth) && (p.Open? || (p.Close? && depth >= 1))
    requires ps == [Codegen.Move(offset), p] && after == depth + Codegen.DepthChange(p)
    ensures Codegen.ValidCode(Codegen.Text(code + ps), after)
  {
    var c1 := code + [Codegen.Move(offset)];
    Codegen.PiecesAssoc(code, [Codegen.Move(offset)], [p]);
    assert [Codegen.Move(offset)] + [p] == [Codegen.Move(offset), p];
    Codegen.PieceKeepsValid(code, depth, Codegen.Move(offset));
    Codegen.PieceKeepsValid(c1, depth, p);
  }

  /** `begin_loop` deepens valid code by one loop. */
  lemma {:induction false} BeginKeepsValid(n: int, sp: int, bf: int, a: Value, code: seq<Codegen.Piece>, depth: int)
    requires BuiltinCode.AtResult(n, sp, bf, a, Codegen.Open).Ok? && Codegen.ValidCode(Codegen.Text(code), depth)
    ensures Codegen.ValidCode(Codegen.Text(code + BuiltinCode.AtResult(n, sp, bf, a, Codegen.Open).value.pieces), depth + 1)
  {
    var ps := BuiltinCode.AtResult(n, sp, bf, a, Codegen.Open).value.pieces;
    MoveThenBracket(code, depth, BuiltinCode.Pos(sp, a) - bf, Codegen.Open, ps, depth + 1);
  }

  /** `end_loop` closes one of the loops the loop stack records. */
  lemma {:induction false} EndKeepsValid(n: int, sp: int, bf: int, stack: seq<int>, a: Value, code: seq<Codegen.Piece>)
    requires BuiltinCode.EndLoopResult(n, sp, bf, stack, a).Ok? && Codegen.ValidCode(Codegen.Text(code), |stack|)
    ensures Codegen.ValidCode(Codegen.Text(code + BuiltinCode.EndLoopResult(n, sp, bf, stack, a).value.pieces), |stack| - 1)
  {
    var ps := BuiltinCode.EndLoopResult(n, sp, bf, stack, a).value.pieces;
    MoveThenBracket(code, |stack|, BuiltinCode.Pos(sp, a) - bf, Codegen.Close, ps, |stack| - 1);
  }

  /** A successful call leaves valid code valid against the loop stack it leaves behind. */
  lemma {:induction false} ResultKeepsValid(n: int, sp: int, bf: int, stack: seq<int>, cells: set<int>, b: Builtin, args: seq<Value>,
                         code: seq<Codegen.Piece>)
    requires |args| == Arity(b) && BuiltinResult(n, sp, bf, stack, cells, b, args).Ok?
    requires Codegen.ValidCode(Codegen.Text(code), |stack|)
    ensures Codegen.ValidCode(Codegen.Text(code + BuiltinResult(n, sp, bf, stack, cells, b, args).value.pieces),
                              |LoopEffect(b, args, stack)|)
  {
    if b.BeginLoop? {
      BeginKeepsValid(n, sp, bf, args[0], code, |stack|);
    } else if b.EndLoop? {
      EndKeepsValid(n, sp, bf, stack, args[0], code);
    } else {
      BuiltinEmits(n, sp, bf, stack, cells, b, args);
      BuiltinCode.EmittableKeepsValid(code, |stack|, BuiltinResult(n, sp, bf, stack, cells, b, args).value.pieces);
    }
  }

  // ---------------------------------------------------------------------------
  // Calling a built-in

  /** Calling `b` with `args`: a wrong argument count is refused before anything runs. */
  method Invoke(m: Codegen.Machine, sm: Allocator.StackMan, b: Builtin, args: seq<Value>) returns (o: Outcome)
    modifies m, sm
    ensures |args| != Arity(b) ==> o == Fail(ArityMismatch) && unchanged(m) && unchanged(sm)
    ensures |args| == Arity(b) ==>
      BuiltinCode.Performs(o, BuiltinResult(m.nCells, old(m.stackPtr), old(m.bfPtr), old(m.loopStack), old(sm.cells), b, args),
                           old(m.code), m.code, m.bfPtr)
    ensures o.Pass? ==>
      m.stackPtr == FrameEffect(b, args, old(m.stackPtr)) && m.loopStack == LoopEffect(b, args, old(m.loopStack)) &&
      sm.cells == old(sm.cells)
    ensures old(m.Valid()) && o.Pass? ==> m.Valid()
  {
    if |args| != Arity(b) {
      return Fail(ArityMismatch);
    }
    ghost var n, sp, bf, stack, cells, code := m.nCells, m.stackPtr, m.bfPtr, m.loopStack, sm.cells, m.code;
    o := Run(m, sm, b, args);
    if o.Pass? && Codegen.ValidCode(Codegen.Text(code), |stack|) {
      ResultKeepsValid(n, sp, bf, stack, cells, b, args, code);
    }
  }

  /** The dispatch itself. */
  method Run(m: Codegen.Machine, sm: Allocator.StackMan, b: Builtin, args: seq<Value>) returns (o: Outcome)
    requires |args| == Arity(b)
    modifies m, sm
    ensures BuiltinCode.Performs(o, BuiltinResult(m.nCells, old(m.stackPtr), old(m.bfPtr), old(m.loopStack), old(sm.cells), b, args),
                                 old(m.code), m.code, m.bfPtr)
    ensures o.Pass? ==>
      m.stackPtr == FrameEffect(b, args, old(m.stackPtr)) && m.loopStack == LoopEffect(b, args, old(m.loopStack)) &&
      sm.cells == old(sm.cells)
  {
    match b
    case Clear => o := Builtins.Clear(m, args[0]);
    case DestructiveAdd => o := Builtins.DestructiveAdd(m, args[0], args[1]);
    case DestructiveSub => o := Builtins.DestructiveSub(m, args[0], args[1]);
    case Move => o := Builtins.MoveValue(m, args[0], args[1]);
    case Copy => o := Builtins.Copy(m, sm, args[0], args[1]);
    case StackAdd => o := Builtins.StackArith(m, sm, args[0], args[1], true);
    case ConstantAdd => o := Builtins.ConstantStep(m, args[0], args[1], true);
    case StackSub => o := Builtins.StackArith(m, sm, args[0], args[1], false);
    case ConstantSub => o := Builtins.ConstantStep(m, args[0], args[1], false);
    case AsLogical => o := Builtins.Logical(m, sm, args[0], args[1], false);
    case LogicalNot => o := Builtins.Logical(m, sm, args[0], args[1], true);
    case LogicalOr => o := Builtins.LogicalPair(m, sm, args[0], args[1], args[2], true);
    case LogicalAnd => o := Builtins.LogicalPair(m, sm, args[0], args[1], args[2], false);
    case GetChar => o := Builtins.CharIO(m, args[0], true);
    case PutChar => o := Builtins.CharIO(m, args[0], false);
    case PutStringConstant => o := Builtins.PutString(m, sm, args[0]);
    case BeginLoop => o := Builtins.BeginLoop(m, args[0]);
    case EndLoop => o := Builtins.EndLoop(m, args[0]);
    case GrowStack => o := Frames.GrowStack(m, sm, args[0]);
    case ShrinkStack => o := Frames.ShrinkStack(m, sm, args[0]);
  }

  /** `_invoke_macro(machine, stack_man, name, *args)`: an unknown name is refused before anything runs. */
  method InvokeMacro(m: Codegen.Machine, sm: Allocator.StackMan, name: string, args: seq<Value>) returns (o: Outcome)
    modifies m, sm
    ensures Lookup(name).Err? ==> o == Fail(UnknownBuiltin) && unchanged(m) && unchanged(sm)
    ensures Lookup(name).Ok? && |args| != Arity(Lookup(name).value) ==> o == Fail(ArityMismatch) && unchanged(m) && unchanged(sm)
    ensures Lookup(name).Ok? && |args| == Arity(Lookup(name).value) ==>
      BuiltinCode.Performs(o, BuiltinResult(m.nCells, old(m.stackPtr), old(m.bfPtr), old(m.loopStack), old(sm.cells), Lookup(name).value, args),
                           old(m.code), m.code, m.bfPtr)
    ensures old(m.Valid()) && o.Pass? ==> m.Valid()
  {
    var r := Lookup(name);
    if r.Err? {
      LookupError(name);
      return Fail(r.error);
    }
    o := Invoke(m, sm, r.value, args);
  }
}
