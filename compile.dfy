// Phase two of the compiler: evaluating the desugared statements of the
// main macro against a chain of environments, a stack-cell allocator and
// the code generator, then formatting the emitted code into lines.

module Compile {
  import opened Wrappers
  import opened PatternMatch
  import opened Sugar
  import opened Opcodes
  import Codegen
  import Allocator
  import Registry
  import BuiltinCode
  import Expr

  /**
   * The run-time values of the evaluator: expression trees (literals,
   * constants, stack addresses), `None`, a built-in macro found by name,
   * and the Python list that `arguments` builds.
   */
  datatype Obj = Tree(v: Value) | Nothing | BuiltinRef(b: Registry.Builtin) | List(elems: seq<Obj>)

  // ---------------------------------------------------------------------------
  // BaseEnv: the root of every environment chain

  /** The constant kinds `BaseEnv.get` resolves, in the order it tries them. */
  const BaseTags: seq<string> := ["int_constant", "char_constant", "string_constant", "stack_address"]

  /** `L((tag, Star('x')))`. */
  function ConstantPattern(tag: string): Pattern
  {
    LiteralPattern(PSeq([PStr(tag), Star("x")]))
  }

  /** `BaseEnv.get` on a tree: the matchers tried in order; none matching is a `KeyError`. */
  function BaseGetFrom(tags: seq<string>, key: Value): Result<Obj>
    decreases |tags|
  {
    if tags == [] then Err(UnboundName)
    else
      match AttemptMatch(ConstantPattern(tags[0]), key)
      case Some(m) => if "x" in m then Ok(Tree(Seq([Str(tags[0]), m["x"]]))) else Err(UnboundName)
      case None => BaseGetFrom(tags[1..], key)
  }

  /** `BaseEnv.get`; a key that is not an expression tree matches none of the patterns. */
  function BaseGet(key: Obj): Result<Obj>
  {
    if key.Tree? then BaseGetFrom(BaseTags, key.v) else Err(UnboundName)
  }

  /** A literal-wrapped constant of one of the kinds `BaseEnv` knows. */
  predicate IsBaseConstant(x: Value)
  {
    x.Seq? && |x.items| == 2 && x.items[0].Str? && x.items[0].s in BaseTags
  }

  /** One constant matcher finds exactly the literal-wrapped pairs with its tag. */
  lemma {:induction false} ConstantPatternMatch(tag: string, v: Value)
    ensures AttemptMatch(ConstantPattern(tag), v) ==
      if Unliteral(v).Some? && Unliteral(v).value.Seq? && |Unliteral(v).value.items| == 2 &&
         Unliteral(v).value.items[0] == Str(tag)
      then Some(map["x" := Unliteral(v).value.items[1]]) else None
  {
    MatchTagPair("literal", PSeq([PStr(tag), Star("x")]), v);
    if Unliteral(v).Some? {
      var x := Unliteral(v).value;
      MatchTagPair(tag, Star("x"), x);
      if x.Seq? && |x.items| == 2 && x.items[0] == Str(tag) {
        LeafPatterns("x", "", x.items[1]);
      }
    }
  }

  /** The matchers from `tags` on find a constant exactly when its tag is one of them. */
  lemma {:induction false} BaseGetFromSpec(tags: seq<string>, key: Value)
    ensures BaseGetFrom(tags, key) ==
      if Unliteral(key).Some? && Unliteral(key).value.Seq? && |Unliteral(key).value.items| == 2 &&
         Unliteral(key).value.items[0].Str? && Unliteral(key).value.items[0].s in tags
      then Ok(Tree(Unliteral(key).value)) else Err(UnboundName)
    decreases |tags|
  {
    if tags != [] {
      ConstantPatternMatch(tags[0], key);
      BaseGetFromSpec(tags[1..], key);
      if Unliteral(key).Some? {
        var x := Unliteral(key).value;
        if x.Seq? && |x.items| == 2 && x.items[0] == Str(tags[0]) {
          assert x == Seq([x.items[0], x.items[1]]);
        }
        assert forall t :: t in tags <==> t == tags[0] || t in tags[1..];
      }
    }
  }

  /**
   * `BaseEnv.get` resolves exactly the literal-wrapped constants and stack
   * addresses, to the unwrapped value; every other key is unbound.
   */
  lemma {:induction false} BaseGetSpec(key: Obj)
    ensures BaseGet(key).Ok? <==> key.Tree? && Unliteral(key.v).Some? && IsBaseConstant(Unliteral(key.v).value)
    ensures BaseGet(key).Ok? ==> BaseGet(key) == Ok(Tree(Unliteral(key.v).value))
    ensures BaseGet(key).Err? ==> BaseGet(key).error == UnboundName
  {
    if key.Tree? {
      BaseGetFromSpec(BaseTags, key.v);
    }
  }

  /** The constants the front end writes resolve to themselves. */
  lemma {:induction false} ConstantsResolve(x: int, s: string, a: int)
    ensures BaseGet(Tree(L(IntConstant(x)))) == Ok(Tree(IntConstant(x)))
    ensures BaseGet(Tree(L(StringConstant(s)))) == Ok(Tree(StringConstant(s)))
    ensures BaseGet(Tree(L(Allocator.AddressOf(a)))) == Ok(Tree(Allocator.AddressOf(a)))
    ensures BaseGet(Tree(L(Str(s)))).Err?
  {
    ConstantResolves(IntConstant(x));
    ConstantResolves(StringConstant(s));
    ConstantResolves(Allocator.AddressOf(a));
    BaseGetSpec(Tree(L(Str(s))));
  }

  lemma {:induction false} ConstantResolves(c: Value)
    requires IsBaseConstant(c)
    ensures BaseGet(Tree(L(c))) == Ok(Tree(c))
  {
    BaseGetSpec(Tree(L(c)));
  }

  // ---------------------------------------------------------------------------
  // Env: the chain of scopes above BaseEnv

  /**
   * One `Env`: its bound variables (declared but unset ones hold `None`)
   * and its deallocation list.  The chain is a stack, innermost last; the
   * empty stack means the current environment is the `BaseEnv`.
   */
  datatype Scope = Scope(bound: map<Obj, Obj>, releases: seq<Obj>)

  /** `Env.get`: the innermost scope binding the key, else `BaseEnv.get`. */
  function LookupIn(scopes: seq<Scope>, key: Obj): Result<Obj>
    decreases |scopes|
  {
    if scopes == [] then BaseGet(key)
    else if key in scopes[|scopes| - 1].bound then Ok(scopes[|scopes| - 1].bound[key])
    else LookupIn(scopes[..|scopes| - 1], key)
  }

  /** `Env.outer_get`: the lookup one scope out; `BaseEnv` has no such method. */
  function OuterLookup(scopes: seq<Scope>, key: Obj): Result<Obj>
  {
    if scopes == [] then Err(RootScope) else LookupIn(scopes[..|scopes| - 1], key)
  }

  /** `do_argument_lookup`: each key looked up in turn; the first failure is the result. */
  function LookupAll(scopes: seq<Scope>, keys: seq<Obj>): Result<seq<Obj>>
    decreases |keys|
  {
    if keys == [] then Ok([])
    else
      var v :- LookupIn(scopes, keys[0]);
      var vs :- LookupAll(scopes, keys[1..]);
      Ok([v] + vs)
  }

  /**
   * The innermost binding wins: a key bound in scope `i` and in no scope
   * inside it resolves to that binding.
   */
  lemma {:induction false} LookupInnermost(scopes: seq<Scope>, key: Obj, i: nat)
    requires i < |scopes| && key in scopes[i].bound
    requires forall j :: i < j < |scopes| ==> key !in scopes[j].bound
    ensures LookupIn(scopes, key) == Ok(scopes[i].bound[key])
    decreases |scopes|
  {
    if i < |scopes| - 1 {
      var init := scopes[..|scopes| - 1];
      assert forall j :: i <= j < |init| ==> init[j] == scopes[j];
      LookupInnermost(init, key, i);
    }
  }

  /** A key bound in no scope resolves as `BaseEnv` resolves it. */
  lemma {:induction false} LookupFallsThrough(scopes: seq<Scope>, key: Obj)
    requires forall j :: 0 <= j < |scopes| ==> key !in scopes[j].bound
    ensures LookupIn(scopes, key) == BaseGet(key)
    decreases |scopes|
  {
    if scopes != [] {
      var init := scopes[..|scopes| - 1];
      assert forall j :: 0 <= j < |init| ==> init[j] == scopes[j];
      LookupFallsThrough(init, key);
    }
  }

  /** The arguments resolve together exactly when each resolves, to the values in order. */
  lemma {:induction false} LookupAllSpec(scopes: seq<Scope>, keys: seq<Obj>)
    ensures LookupAll(scopes, keys).Ok? <==> forall i :: 0 <= i < |keys| ==> LookupIn(scopes, keys[i]).Ok?
    ensures LookupAll(scopes, keys).Ok? ==>
      |LookupAll(scopes, keys).value| == |keys| &&
      forall i :: 0 <= i < |keys| ==> LookupAll(scopes, keys).value[i] == LookupIn(scopes, keys[i]).value
    decreases |keys|
  {
    if keys != [] {
      LookupAllSpec(scopes, keys[1..]);
      assert forall i :: 1 <= i < |keys| ==> keys[1..][i - 1] == keys[i];
      if LookupAll(scopes, keys).Ok? {
        var vs := LookupAll(scopes, keys[1..]).value;
        var all := [LookupIn(scopes, keys[0]).value] + vs;
        assert forall i :: 1 <= i < |keys| ==> all[i] == vs[i - 1];
      }
    }
  }

  // ---------------------------------------------------------------------------
  // Freeing the locals of a scope

  /** `do_free_local`: the shape of `StackMan.free_local`, for any run-time value. */
  function Release(cells: set<int>, x: Obj): Result<set<int>>
  {
    if !x.Tree? then Err(Malformed)
    else
      match AttemptMatch(Allocator.FreePattern(), x.v)
      case None => Err(Malformed)
      case Some(m) => if "i" in m && m["i"].Int? && m["i"].i in cells then Ok(cells - {m["i"].i}) else Err(DoubleFree)
  }

  /** The loop of `do_env_end`: the deallocation list freed in order; the first failure stops it. */
  function ReleaseAll(cells: set<int>, xs: seq<Obj>): Result<set<int>>
    decreases |xs|
  {
    if xs == [] then Ok(cells)
    else
      var c :- Release(cells, xs[0]);
      ReleaseAll(c, xs[1..])
  }

  /** The addresses of the offsets `offs`, as the allocator hands them out. */
  function Addresses(offs: seq<int>): seq<Obj>
  {
    seq(|offs|, k requires 0 <= k < |offs| => Tree(Allocator.AddressOf(offs[k])))
  }

  /** No offset twice. */
  predicate DistinctInts(offs: seq<int>)
  {
    forall i, j :: 0 <= i < j < |offs| ==> offs[i] != offs[j]
  }

  /**
   * Freeing distinct occupied offsets releases exactly those; freeing an
   * offset that is not occupied (or was freed before) is a double free.
   */
  lemma {:induction false} ReleaseAddresses(cells: set<int>, offs: seq<int>)
    ensures DistinctInts(offs) && (forall k :: 0 <= k < |offs| ==> offs[k] in cells) ==>
      ReleaseAll(cells, Addresses(offs)) == Ok(cells - set x | x in offs)
    ensures (exists k :: 0 <= k < |offs| && offs[k] !in cells) ==> ReleaseAll(cells, Addresses(offs)) == Err(DoubleFree)
  {
    if DistinctInts(offs) && (forall k :: 0 <= k < |offs| ==> offs[k] in cells) {
      ReleaseDistinct(cells, offs);
    }
    if exists k :: 0 <= k < |offs| && offs[k] !in cells {
      var k :| 0 <= k < |offs| && offs[k] !in cells;
      ReleaseMissing(cells, offs, k);
    }
  }

  /** Freeing the first address, then the rest. */
  lemma {:induction false} ReleaseHead(cells: set<int>, offs: seq<int>)
    requires offs != []
    ensures ReleaseAll(cells, Addresses(offs)) ==
      if offs[0] in cells then ReleaseAll(cells - {offs[0]}, Addresses(offs[1..])) else Err(DoubleFree)
  {
    Allocator.FreeAddressOf(offs[0]);
    assert Addresses(offs)[1..] == Addresses(offs[1..]);
    assert Addresses(offs)[0] == Tree(Allocator.AddressOf(offs[0]));
  }

  lemma {:induction false} ReleaseDistinct(cells: set<int>, offs: seq<int>)
    requires DistinctInts(offs) && forall k :: 0 <= k < |offs| ==> offs[k] in cells
    ensures ReleaseAll(cells, Addresses(offs)) == Ok(cells - set x | x in offs)
    decreases |offs|
  {
    if offs == [] {
      assert (set x | x in offs) == {};
      assert Addresses(offs) == [];
      assert cells - {} == cells;
    } else {
      ReleaseHead(cells, offs);
      DistinctTail(cells, offs);
      ReleaseDistinct(cells - {offs[0]}, offs[1..]);
      RemoveHead(cells, offs);
    }
  }

  lemma {:induction false} DistinctTail(cells: set<int>, offs: seq<int>)
    requires offs != [] && DistinctInts(offs) && forall k :: 0 <= k < |offs| ==> offs[k] in cells
    ensures DistinctInts(offs[1..]) && forall k :: 0 <= k < |offs[1..]| ==> offs[1..][k] in cells - {offs[0]}
  {
    var rest := offs[1..];
    assert forall k :: 0 <= k < |rest| ==> rest[k] == offs[k + 1];
  }

  lemma {:induction false} RemoveHead(cells: set<int>, offs: seq<int>)
    requires offs != []
    ensures (cells - {offs[0]}) - (set x | x in offs[1..]) == cells - set x | x in offs
  {
    assert offs == [offs[0]] + offs[1..];
  }

  lemma {:induction false} ReleaseMissing(cells: set<int>, offs: seq<int>, k: nat)
    requires k < |offs| && offs[k] !in cells
    ensures ReleaseAll(cells, Addresses(offs)) == Err(DoubleFree)
    decreases |offs|
  {
    ReleaseHead(cells, offs);
    if offs[0] in cells {
      var rest := offs[1..];
      assert rest[k - 1] == offs[k];
      ReleaseMissing(cells - {offs[0]}, rest, k - 1);
    }
  }

  // ---------------------------------------------------------------------------
  // formatted_code

  /** The width of an output line. */
  const LineWidth := 70

  /** The `while` loop of `formatted_code`: full-width pieces, then the non-empty remainder. */
  function Lines(code: string): seq<string>
    decreases |code|
  {
    if |code| > LineWidth then [code[..LineWidth]] + Lines(code[LineWidth..])
    else if code == "" then []
    else [code]
  }

  /** Every line followed by a newline, joined. */
  function Joined(lines: seq<string>): string
    decreases |lines|
  {
    if lines == [] then "" else lines[0] + "\n" + Joined(lines[1..])
  }

  /** The lines concatenated again. */
  function Flatten(lines: seq<string>): string
    decreases |lines|
  {
    if lines == [] then "" else lines[0] + Flatten(lines[1..])
  }

  /** The text with its newlines removed. */
  function DropNewlines(s: string): string
    decreases |s|
  {
    if s == "" then "" else (if s[0] == '\n' then "" else [s[0]]) + DropNewlines(s[1..])
  }

  lemma {:induction false} DropNewlinesAppend(a: string, b: string)
    ensures DropNewlines(a + b) == DropNewlines(a) + DropNewlines(b)
    decreases |a|
  {
    if a != "" {
      assert (a + b)[1..] == a[1..] + b;
      DropNewlinesAppend(a[1..], b);
    } else {
      assert a + b == b;
    }
  }

  /**
   * The lines of `formatted_code`: they concatenate back to the code, each
   * is non-empty and at most 70 characters, and all but the last are full.
   */
  lemma {:induction false} LinesSpec(code: string)
    ensures Flatten(Lines(code)) == code
    ensures forall i :: 0 <= i < |Lines(code)| ==> 0 < |Lines(code)[i]| <= LineWidth
    ensures forall i :: 0 <= i < |Lines(code)| - 1 ==> |Lines(code)[i]| == LineWidth
    ensures |Lines(code)| == (|code| + LineWidth - 1) / LineWidth
    decreases |code|
  {
    if |code| > LineWidth {
      var rest := code[LineWidth..];
      LinesSpec(rest);
      assert code == code[..LineWidth] + rest;
      assert forall i :: 1 <= i < |Lines(code)| ==> Lines(code)[i] == Lines(rest)[i - 1];
    }
  }

  /** Removing the newlines from the joined lines gives back the flattened lines, for newline-free lines. */
  lemma {:induction false} JoinedDrop(lines: seq<string>)
    requires forall i :: 0 <= i < |lines| ==> DropNewlines(lines[i]) == lines[i]
    ensures DropNewlines(Joined(lines)) == Flatten(lines)
    decreases |lines|
  {
    if lines != [] {
      var head, rest := lines[0], Joined(lines[1..]);
      JoinedDrop(lines[1..]);
      var nl: string := "\n";
      assert DropNewlines(nl) == "" by { assert nl[0] == '\n' && nl[1..] == ""; }
      assert Joined(lines) == head + nl + rest;
      DropNewlinesAppend(head + nl, rest);
      DropNewlinesAppend(head, nl);
      assert DropNewlines(head + nl) == head + "";
      assert head + "" == head;
    }
  }

  /** Text without a newline is its own newline-free form. */
  lemma {:induction false} NoNewlineDrop(s: string)
    requires forall i :: 0 <= i < |s| ==> s[i] != '\n'
    ensures DropNewlines(s) == s
    decreases |s|
  {
    if s != "" {
      NoNewlineDrop(s[1..]);
      assert s == [s[0]] + s[1..];
    }
  }

  /** Every piece of a newline-free text is newline-free. */
  lemma {:induction false} PiecesNoNewline(code: string)
    requires forall i :: 0 <= i < |code| ==> code[i] != '\n'
    ensures forall i :: 0 <= i < |Lines(code)| ==> DropNewlines(Lines(code)[i]) == Lines(code)[i]
    decreases |code|
  {
    if |code| > LineWidth {
      PiecesNoNewline(code[LineWidth..]);
      NoNewlineDrop(code[..LineWidth]);
      assert forall i :: 1 <= i < |Lines(code)| ==> Lines(code)[i] == Lines(code[LineWidth..])[i - 1];
    } else if code != "" {
      NoNewlineDrop(code);
    }
  }

  /**
   * Formatting loses nothing: with the newlines removed the output is the
   * code again, and empty code formats to the empty string.
   */
  lemma {:induction false} FormatRoundTrip(code: string)
    requires AllOpcodes(code)
    ensures DropNewlines(Joined(Lines(code))) == code
    ensures code == "" <==> Joined(Lines(code)) == ""
  {
    assert forall i :: 0 <= i < |code| ==> code[i] != '\n' by {
      forall i | 0 <= i < |code| ensures code[i] != '\n' { assert IsOpcode(code[i]); }
    }
    PiecesNoNewline(code);
    JoinedDrop(Lines(code));
    LinesSpec(code);
    if code != "" {
      assert |Joined(Lines(code))| >= 1;
    }
  }

  /** `formatted_code`, with the source's loop. */
  method FormattedCode(code: string) returns (out: string)
    ensures out == Joined(Lines(code))
  {
    var rest := code;
    var lines: seq<string> := [];
    while |rest| > LineWidth
      invariant lines + Lines(rest) == Lines(code)
      decreases |rest|
    {
      assert Lines(rest) == [rest[..LineWidth]] + Lines(rest[LineWidth..]);
      lines := lines + [rest[..LineWidth]];
      rest := rest[LineWidth..];
    }
    if rest != "" {
      lines := lines + [rest];
    } else {
      assert lines + [] == lines;
    }
    out := Joined(lines);
  }

  // ---------------------------------------------------------------------------
  // Environment transitions

  /** `do_env_begin`: a fresh innermost scope. */
  function Pushed(scopes: seq<Scope>): seq<Scope>
  {
    scopes + [Scope(map[], [])]
  }

  /** `Env.declare` on the innermost scope: the key bound to `None`; twice is an assertion failure. */
  function Declared(scopes: seq<Scope>, key: Obj): Result<seq<Scope>>
  {
    if scopes == [] then Err(RootScope)
    else
      var top := scopes[|scopes| - 1];
      if key in top.bound then Err(DuplicateDeclaration)
      else Ok(scopes[..|scopes| - 1] + [Scope(top.bound[key := Nothing], top.releases)])
  }

  /** `Env.set` on the innermost scope: only a key declared there may be set. */
  function Assigned(scopes: seq<Scope>, key: Obj, value: Obj): Result<seq<Scope>>
  {
    if scopes == [] then Err(RootScope)
    else
      var top := scopes[|scopes| - 1];
      if key !in top.bound then Err(NotDeclared)
      else Ok(scopes[..|scopes| - 1] + [Scope(top.bound[key := value], top.releases)])
  }

  /** `Env.free_local_on_env_exit`: the value appended to the innermost deallocation list. */
  function Deferred(scopes: seq<Scope>, x: Obj): Result<seq<Scope>>
  {
    if scopes == [] then Err(RootScope)
    else
      var top := scopes[|scopes| - 1];
      Ok(scopes[..|scopes| - 1] + [Scope(top.bound, top.releases + [x])])
  }

  /** A fresh scope hides nothing: every key resolves as before. */
  lemma {:induction false} PushedLookup(scopes: seq<Scope>, key: Obj)
    ensures LookupIn(Pushed(scopes), key) == LookupIn(scopes, key)
    ensures OuterLookup(Pushed(scopes), key) == LookupIn(scopes, key)
  {
    assert Pushed(scopes)[..|Pushed(scopes)| - 1] == scopes;
  }

  /**
   * A declared key resolves to `None` until it is set, and then to the
   * value set; it shadows any outer binding of the same key.
   */
  lemma {:induction false} DeclareThenSet(scopes: seq<Scope>, key: Obj, value: Obj)
    ensures Declared(scopes, key).Ok? ==>
      LookupIn(Declared(scopes, key).value, key) == Ok(Nothing) &&
      Assigned(Declared(scopes, key).value, key, value).Ok? &&
      LookupIn(Assigned(Declared(scopes, key).value, key, value).value, key) == Ok(value)
  {
    if Declared(scopes, key).Ok? {
      var d := Declared(scopes, key).value;
      assert d[..|d| - 1] == scopes[..|scopes| - 1];
    }
  }

  /** Declaring, setting or deferring one key leaves every other key's binding as it was. */
  lemma {:induction false} OthersUnchanged(scopes: seq<Scope>, key: Obj, value: Obj, other: Obj)
    requires other != key
    ensures Declared(scopes, key).Ok? ==> LookupIn(Declared(scopes, key).value, other) == LookupIn(scopes, other)
    ensures Assigned(scopes, key, value).Ok? ==> LookupIn(Assigned(scopes, key, value).value, other) == LookupIn(scopes, other)
    ensures Deferred(scopes, value).Ok? ==> LookupIn(Deferred(scopes, value).value, other) == LookupIn(scopes, other)
  {
    if scopes != [] {
      var init, top := scopes[..|scopes| - 1], scopes[|scopes| - 1];
      assert scopes == init + [top];
      if key !in top.bound {
        TopReplaced(init, top, Scope(top.bound[key := Nothing], top.releases), other);
      } else {
        TopReplaced(init, top, Scope(top.bound[key := value], top.releases), other);
      }
      TopReplaced(init, top, Scope(top.bound, top.releases + [value]), other);
    }
  }

  /** Replacing the innermost scope by one that binds `other` alike leaves the lookup of `other` as it was. */
  lemma {:induction false} TopReplaced(init: seq<Scope>, top: Scope, top': Scope, other: Obj)
    requires other in top.bound <==> other in top'.bound
    requires other in top.bound ==> top.bound[other] == top'.bound[other]
    ensures LookupIn(init + [top'], other) == LookupIn(init + [top], other)
  {
    var s, s' := init + [top], init + [top'];
    assert s[..|s| - 1] == init && s'[..|s'| - 1] == init;
  }

  /** An outer lookup inside a fresh scope reads the bindings of the scope that opened it. */
  lemma {:induction false} OuterReadsCaller(scopes: seq<Scope>, top: Scope, key: Obj)
    ensures OuterLookup(scopes + [top], key) == LookupIn(scopes, key)
  {
    assert (scopes + [top])[..|scopes + [top]| - 1] == scopes;
  }

  // ---------------------------------------------------------------------------
  // The built-in macro call support

  /** `do_macro_name_lookup`: the name inside a literal, looked up among the built-ins. */
  function NameLookup(x: Obj): Result<Obj>
  {
    if !x.Tree? || Unliteral(x.v).None? then Err(Malformed)
    else if !Unliteral(x.v).value.Str? then Err(UnknownBuiltin)
    else
      var b :- Registry.Lookup(Unliteral(x.v).value.s);
      Ok(BuiltinRef(b))
  }

  /** A literal name resolves to the built-in of that name, and only to it. */
  lemma {:induction false} NameLookupSpec(x: Obj, b: Registry.Builtin)
    ensures NameLookup(x) == Ok(BuiltinRef(b)) <==> x == Tree(L(Str(Registry.Name(b))))
    ensures NameLookup(x).Err? ==> NameLookup(x).error in {Malformed, UnknownBuiltin}
  {
    if x.Tree? && Unliteral(x.v).Some? && Unliteral(x.v).value.Str? {
      var n := Unliteral(x.v).value.s;
      Registry.LookupIffName(n, b);
      Registry.LookupError(n);
      assert x.v == Seq([x.v.items[0], x.v.items[1]]);
    }
  }

  /** The argument list a built-in receives: a list of expression trees. */
  function ArgValues(args: Obj): Option<seq<Value>>
  {
    if args.List? && forall i :: 0 <= i < |args.elems| ==> args.elems[i].Tree? then
      Some(seq(|args.elems|, i requires 0 <= i < |args.elems| && args.elems[i].Tree? => args.elems[i].v))
    else None
  }

  // ---------------------------------------------------------------------------
  // The dispatch table

  /** The tags `tag_dispatch` knows. */
  datatype Op =
    | EnvBeginOp | EnvEndOp | EnvDeclareOp | EnvSetOp | EnvGetOp | OuterEnvGetOp
    | ArgumentsOp | AllocateLocalOp | FreeLocalOp | FreeOnExitOp | NameOp | CallBuiltinOp

  function OpName(op: Op): string
  {
    match op
    case EnvBeginOp => "env_begin"
    case EnvEndOp => "env_end"
    case EnvDeclareOp => "env_declare"
    case EnvSetOp => "env_set"
    case EnvGetOp => "env_get"
    case OuterEnvGetOp => "outer_env_get"
    case ArgumentsOp => "arguments"
    case AllocateLocalOp => "allocate_local"
    case FreeLocalOp => "free_local"
    case FreeOnExitOp => "free_local_on_env_exit"
    case NameOp => "name"
    case CallBuiltinOp => "call_builtin"
  }

  /** The entries of `tag_dispatch`. */
  const OpTable: seq<Op> :=
    [EnvBeginOp, EnvEndOp, EnvDeclareOp, EnvSetOp, EnvGetOp, OuterEnvGetOp,
     ArgumentsOp, AllocateLocalOp, FreeLocalOp, FreeOnExitOp, NameOp, CallBuiltinOp]

  /** `tag in tag_dispatch`, from entry `i` on. */
  function FindOp(tag: Value, i: nat): Option<Op>
    decreases |OpTable| - i
  {
    if i >= |OpTable| then None
    else if tag == Str(OpName(OpTable[i])) then Some(OpTable[i])
    else FindOp(tag, i + 1)
  }

  function ParseOp(tag: Value): Option<Op>
  {
    FindOp(tag, 0)
  }

  /** Every entry found is one whose name is the tag. */
  lemma {:induction false} FindOpName(tag: Value, i: nat)
    ensures FindOp(tag, i).Some? ==> tag == Str(OpName(FindOp(tag, i).value))
    decreases |OpTable| - i
  {
    if i < |OpTable| && tag != Str(OpName(OpTable[i])) {
      FindOpName(tag, i + 1);
    }
  }

  /**
   * Length, first, third-last and last character packed into one number,
   * one byte each: `len * 2^24 + ord(first) * 2^16 + ord(third_last) * 2^8 + ord(last)`.
   * That is enough to tell the tags apart (`env_get` and `env_set` differ only
   * in the third-last character).
   */
  function TagSignature(s: string): int
  {
    if |s| < 3 then 0
    else |s| * 16777216 + (s[0] as int) * 65536 + (s[|s| - 3] as int) * 256 + (s[|s| - 1] as int)
  }

  /**
   * The signature of each tag, worked out by hand: `name` is
   * `4 * 2^24 + ord('n') * 2^16 + ord('a') * 2^8 + ord('e')` = 74342757.
   * `SignatureOfOp` checks every entry against `TagSignature`.
   */
  function OpSignature(op: Op): int
  {
    match op
    case EnvBeginOp => 157640558
    case EnvEndOp => 124085604
    case EnvDeclareOp => 191193445
    case EnvSetOp => 124089204
    case EnvGetOp => 124086132
    case OuterEnvGetOp => 225404788
    case ArgumentsOp => 157380211
    case AllocateLocalOp => 241263468
    case FreeLocalOp => 174482284
    case FreeOnExitOp => 375814260
    case NameOp => 74342757
    case CallBuiltinOp => 207844462
  }

  lemma {:induction false} SignatureOfOp(op: Op)
    ensures TagSignature(OpName(op)) == OpSignature(op)
  {
  }

  /** No two handlers share a tag. */
  lemma {:induction false} OpNameInjective(a: Op, b: Op)
    ensures OpName(a) == OpName(b) ==> a == b
  {
    SignatureOfOp(a);
    SignatureOfOp(b);
  }

  /** Searching from an entry at or before `op`'s finds `op` under its tag. */
  lemma {:induction false} FindOpOf(op: Op, i: nat)
    requires i <= |OpTable| && op in OpTable[i..]
    ensures FindOp(Str(OpName(op)), i) == Some(op)
    decreases |OpTable| - i
  {
    if OpTable[i] != op {
      OpNameInjective(OpTable[i], op);
      assert op in OpTable[i + 1..];
      FindOpOf(op, i + 1);
    }
  }

  /** `tag_dispatch` maps exactly the twelve tags to their handlers. */
  lemma {:induction false} ParseOpSpec(tag: Value, op: Op)
    ensures ParseOp(tag) == Some(op) <==> tag == Str(OpName(op))
  {
    FindOpName(tag, 0);
    assert op in OpTable by {
      match op
      case EnvBeginOp => assert OpTable[0] == op;
      case EnvEndOp => assert OpTable[1] == op;
      case EnvDeclareOp => assert OpTable[2] == op;
      case EnvSetOp => assert OpTable[3] == op;
      case EnvGetOp => assert OpTable[4] == op;
      case OuterEnvGetOp => assert OpTable[5] == op;
      case ArgumentsOp => assert OpTable[6] == op;
      case AllocateLocalOp => assert OpTable[7] == op;
      case FreeLocalOp => assert OpTable[8] == op;
      case FreeOnExitOp => assert OpTable[9] == op;
      case NameOp => assert OpTable[10] == op;
      case CallBuiltinOp => assert OpTable[11] == op;
    }
    assert OpTable[0..] == OpTable;
    if tag == Str(OpName(op)) {
      FindOpOf(op, 0);
    } else if ParseOp(tag) == Some(op) {
      assert false;
    }
  }

  /** The number of arguments each handler takes; `do_argument_lookup` takes any number. */
  function OpArity(op: Op): Option<nat>
  {
    match op
    case EnvBeginOp => Some(0)
    case EnvEndOp => Some(0)
    case EnvDeclareOp => Some(1)
    case EnvSetOp => Some(2)
    case EnvGetOp => Some(1)
    case OuterEnvGetOp => Some(1)
    case ArgumentsOp => None
    case AllocateLocalOp => Some(0)
    case FreeLocalOp => Some(1)
    case FreeOnExitOp => Some(1)
    case NameOp => Some(1)
    case CallBuiltinOp => Some(2)
  }

  /** Whether a handler accepts `n` arguments. */
  predicate Fits(op: Op, n: nat)
  {
    OpArity(op).None? || OpArity(op).value == n
  }

  // ---------------------------------------------------------------------------
  // The evaluator as a function of the compiler state

  /**
   * Everything the handlers read or change: the scope chain, the occupied
   * offsets, and the machine's code, cursor, frame base and loop stack.
   */
  datatype Snapshot = Snapshot(scopes: seq<Scope>, cells: set<int>, code: seq<Codegen.Piece>, bf: int, sp: int, loops: seq<int>)

  /** A value together with the state it leaves behind. */
  datatype Step = Step(value: Obj, after: Snapshot)

  /** Evaluated arguments together with the state they leave behind. */
  datatype Evaluated = Evaluated(values: seq<Obj>, after: Snapshot)

  /** The value of a step, or its error. */
  function ValueOf(r: Result<Step>): Result<Obj>
  {
    if r.Ok? then Ok(r.value.value) else Err(r.error)
  }

  /** The state left by a handler that only changes the scope chain. */
  function WithScopes(r: Result<seq<Scope>>, s: Snapshot): Result<Step>
  {
    if r.Ok? then Ok(Step(Nothing, s.(scopes := r.value))) else Err(r.error)
  }

  /** What a call of a built-in does to the state: the state it leaves, or its error. */
  type Runner = (Snapshot, Registry.Builtin, seq<Value>) -> Result<Snapshot>

  /**
   * The built-ins on a tape of `n` cells: a wrong argument count is refused;
   * otherwise the built-in's pieces are appended to the code and its cursor,
   * frame and loop-stack effects applied.
   */
  ghost function BuiltinsOn(n: int): Runner
  {
    (s: Snapshot, b: Registry.Builtin, vals: seq<Value>) =>
      if |vals| != Registry.Arity(b) then Err(ArityMismatch)
      else
        var e :- Registry.BuiltinResult(n, s.sp, s.bf, s.loops, s.cells, b, vals);
        Ok(s.(code := s.code + e.pieces, bf := e.bf,
              sp := Registry.FrameEffect(b, vals, s.sp),
              loops := Registry.LoopEffect(b, vals, s.loops)))
  }

  /** `do_call_macro`: the built-in found by name run on the argument list. */
  ghost function CallSpec(run: Runner, s: Snapshot, f: Obj, args: Obj): Result<Step>
  {
    if !f.BuiltinRef? then Err(NotCallable)
    else if ArgValues(args).None? then Err(Malformed)
    else
      var t :- run(s, f.b, ArgValues(args).value);
      Ok(Step(Nothing, t))
  }

  /** The handler `op`, with the built-ins `run`: its value and the state it leaves, or its error. */
  ghost function OpSpec(run: Runner, s: Snapshot, op: Op, args: seq<Obj>): Result<Step>
    requires Fits(op, |args|)
  {
    match op
    case EnvBeginOp => Ok(Step(Nothing, s.(scopes := Pushed(s.scopes))))
    case EnvEndOp =>
      if s.scopes == [] then Err(RootScope)
      else
        var c :- ReleaseAll(s.cells, s.scopes[|s.scopes| - 1].releases);
        Ok(Step(Nothing, s.(scopes := s.scopes[..|s.scopes| - 1], cells := c)))
    case EnvDeclareOp => WithScopes(Declared(s.scopes, args[0]), s)
    case EnvSetOp => WithScopes(Assigned(s.scopes, args[0], args[1]), s)
    case EnvGetOp =>
      var v :- LookupIn(s.scopes, args[0]);
      Ok(Step(v, s))
    case OuterEnvGetOp =>
      var v :- OuterLookup(s.scopes, args[0]);
      Ok(Step(v, s))
    case ArgumentsOp =>
      var vs :- LookupAll(s.scopes, args);
      Ok(Step(List(vs), s))
    case AllocateLocalOp =>
      var i := Allocator.LeastFree(s.cells);
      Ok(Step(Tree(Allocator.AddressOf(i)), s.(cells := s.cells + {i})))
    case FreeLocalOp =>
      var c :- Release(s.cells, args[0]);
      Ok(Step(Nothing, s.(cells := c)))
    case FreeOnExitOp => WithScopes(Deferred(s.scopes, args[0]), s)
    case NameOp =>
      var v :- NameLookup(args[0]);
      Ok(Step(v, s))
    case CallBuiltinOp => CallSpec(run, s, args[0], args[1])
  }

  /** `dispatch`: an unknown tag, or a handler given the wrong number of arguments, fails. */
  ghost function DispatchSpec(run: Runner, s: Snapshot, tag: Value, args: seq<Obj>): Result<Step>
  {
    match ParseOp(tag)
    case None => Err(UnknownOperation)
    case Some(op) => if Fits(op, |args|) then OpSpec(run, s, op, args) else Err(ArityMismatch)
  }

  /**
   * `eval_expr`: a literal is its own value; otherwise the expression must
   * be a non-empty tuple, whose elements after the head are evaluated left
   * to right, each in the state the previous one left, and then handed to
   * the head's handler.  The first failure is the result.
   */
  ghost function EvalSpec(run: Runner, s: Snapshot, e: Value): Result<Step>
    decreases e, 1
  {
    if Unliteral(e).Some? then Ok(Step(Tree(e), s))
    else if !(e.Seq? && |e.items| >= 1) then Err(Malformed)
    else
      var a :- EvalItems(run, s, e, |e.items|);
      DispatchSpec(run, a.after, e.items[0], a.values)
  }

  /** The elements `1 .. k - 1` of the tuple `e`, evaluated left to right. */
  ghost function EvalItems(run: Runner, s: Snapshot, e: Value, k: nat): Result<Evaluated>
    requires e.Seq? && 1 <= k <= |e.items|
    decreases e, 0, k
  {
    if k == 1 then Ok(Evaluated([], s))
    else
      var a :- EvalItems(run, s, e, k - 1);
      var v :- EvalSpec(run, a.after, e.items[k - 1]);
      Ok(Evaluated(a.values + [v.value], v.after))
  }



  /** Code valid for the loop stack of the state. */
  ghost predicate ValidAt(s: Snapshot)
  {
    Codegen.ValidCode(Codegen.Text(s.code), |s.loops|)
  }

  /** Built-ins that only append to the code and keep valid code valid for the loop stack they leave. */
  ghost predicate RunKeeps(run: Runner)
  {
    forall s: Snapshot, b: Registry.Builtin, vals: seq<Value> ::
      run(s, b, vals).Ok? ==> s.code <= run(s, b, vals).value.code && (ValidAt(s) ==> ValidAt(run(s, b, vals).value))
  }

  /** The compiler's built-ins are such built-ins. */
  lemma {:induction false} RunnerKeeps(n: int)
    ensures RunKeeps(BuiltinsOn(n))
  {
    forall s: Snapshot, b: Registry.Builtin, vals: seq<Value> | BuiltinsOn(n)(s, b, vals).Ok?
      ensures s.code <= BuiltinsOn(n)(s, b, vals).value.code
      ensures ValidAt(s) ==> ValidAt(BuiltinsOn(n)(s, b, vals).value)
    {
      if ValidAt(s) {
        Registry.ResultKeepsValid(n, s.sp, s.bf, s.loops, s.cells, b, vals, s.code);
      }
    }
  }

  /**
   * A successful handler only appends to the code, never takes any back,
   * and keeps valid code valid for the loop stack it leaves.
   */
  lemma {:induction false} OpKeeps(run: Runner, s: Snapshot, op: Op, args: seq<Obj>)
    requires RunKeeps(run) && Fits(op, |args|) && OpSpec(run, s, op, args).Ok?
    ensures s.code <= OpSpec(run, s, op, args).value.after.code
    ensures ValidAt(s) ==> ValidAt(OpSpec(run, s, op, args).value.after)
  {
    if op.CallBuiltinOp? {
      CallOpSpec(run, s, args[0], args[1]);
      var t := run(s, args[0].b, ArgValues(args[1]).value);
      assert t.Ok? && OpSpec(run, s, op, args).value.after == t.value;
    } else {
      assert OpSpec(run, s, op, args).value.after.code == s.code;
      assert OpSpec(run, s, op, args).value.after.loops == s.loops;
    }
  }

  /**
   * A successful evaluation only appends to the code: the instruction text
   * before it is a prefix of the text after it.  And valid code stays
   * valid: every loop the evaluation opens it also closes, unless the
   * expression is a `begin_loop`/`end_loop` call, which the loop stack records.
   */
  lemma {:induction false} EvalKeeps(run: Runner, s: Snapshot, e: Value)
    requires RunKeeps(run) && EvalSpec(run, s, e).Ok?
    ensures s.code <= EvalSpec(run, s, e).value.after.code
    ensures ValidAt(s) ==> ValidAt(EvalSpec(run, s, e).value.after)
    decreases e, 1
  {
    if Unliteral(e).None? {
      var a := EvalItems(run, s, e, |e.items|).value;
      ItemsKeeps(run, s, e, |e.items|);
      var op := ParseOp(e.items[0]).value;
      OpKeeps(run, a.after, op, a.values);
    }
  }

  /** The same for the elements of a tuple evaluated left to right. */
  lemma {:induction false} ItemsKeeps(run: Runner, s: Snapshot, e: Value, k: nat)
    requires RunKeeps(run) && e.Seq? && 1 <= k <= |e.items| && EvalItems(run, s, e, k).Ok?
    ensures s.code <= EvalItems(run, s, e, k).value.after.code
    ensures ValidAt(s) ==> ValidAt(EvalItems(run, s, e, k).value.after)
    decreases e, 0, k
  {
    if k > 1 {
      var a := EvalItems(run, s, e, k - 1).value;
      ItemsKeeps(run, s, e, k - 1);
      EvalKeeps(run, a.after, e.items[k - 1]);
    }
  }

  /** The keys `ARGS(*xs)` evaluates to: each argument still wrapped in `L`. */
  function Keys(xs: seq<Value>): seq<Obj>
  {
    seq(|xs|, i requires 0 <= i < |xs| => Tree(L(xs[i])))
  }

  /** The literal elements of a tagged list evaluate to themselves and change nothing. */
  lemma {:induction false} LiteralItems(run: Runner, s: Snapshot, tag: string, xs: seq<Value>, k: nat)
    requires 1 <= k <= |xs| + 1
    ensures EvalItems(run, s, Tagged(tag, xs), k) == Ok(Evaluated(Keys(xs)[..k - 1], s))
  {
    var e := Tagged(tag, xs);
    if k > 1 {
      LiteralItems(run, s, tag, xs, k - 1);
      assert e.items[k - 1] == L(xs[k - 2]);
      assert Keys(xs)[..k - 2] + [Tree(L(xs[k - 2]))] == Keys(xs)[..k - 1];
    }
  }

  /** A tuple that is not a literal: its elements after the head, then the head's handler. */
  lemma {:induction false} EvalCompound(run: Runner, s: Snapshot, e: Value)
    requires e.Seq? && |e.items| >= 1 && Unliteral(e).None?
    ensures EvalSpec(run, s, e) ==
      var a := EvalItems(run, s, e, |e.items|);
      if a.Ok? then DispatchSpec(run, a.value.after, e.items[0], a.value.values) else Err(a.error)
  {
  }

  /** A handler's own tag dispatches to it. */
  lemma {:induction false} DispatchTag(run: Runner, s: Snapshot, op: Op, args: seq<Obj>)
    requires Fits(op, |args|)
    ensures DispatchSpec(run, s, Str(OpName(op)), args) == OpSpec(run, s, op, args)
  {
    ParseOpSpec(Str(OpName(op)), op);
  }

  /** A tuple headed by a handler's tag whose elements evaluate: that handler on their values. */
  lemma {:induction false} EvalTagged(run: Runner, s: Snapshot, e: Value, op: Op)
    requires e.Seq? && |e.items| >= 1 && Unliteral(e).None? && e.items[0] == Str(OpName(op))
    requires EvalItems(run, s, e, |e.items|).Ok? && Fits(op, |EvalItems(run, s, e, |e.items|).value.values|)
    ensures EvalSpec(run, s, e) ==
      OpSpec(run, EvalItems(run, s, e, |e.items|).value.after, op, EvalItems(run, s, e, |e.items|).value.values)
  {
    var a := EvalItems(run, s, e, |e.items|).value;
    EvalCompound(run, s, e);
    DispatchTag(run, a.after, op, a.values);
  }

  /** `do_argument_lookup` as a handler. */
  lemma {:induction false} ArgumentsOpSpec(run: Runner, s: Snapshot, keys: seq<Obj>)
    ensures OpSpec(run, s, ArgumentsOp, keys) ==
      match LookupAll(s.scopes, keys)
      case Ok(vs) => Ok(Step(List(vs), s))
      case Err(e) => Err(e)
  {
  }

  /** `do_macro_name_lookup` as a handler. */
  lemma {:induction false} NameOpSpec(run: Runner, s: Snapshot, k: Obj)
    ensures OpSpec(run, s, NameOp, [k]) ==
      match NameLookup(k)
      case Ok(v) => Ok(Step(v, s))
      case Err(e) => Err(e)
  {
  }

  /** `do_call_macro` as a handler. */
  lemma {:induction false} CallOpSpec(run: Runner, s: Snapshot, f: Obj, a: Obj)
    ensures OpSpec(run, s, CallBuiltinOp, [f, a]) == CallSpec(run, s, f, a)
  {
  }

  /** `ARGS(*xs)` evaluates to the values the arguments are bound to, looked up in order. */
  lemma {:induction false} ArgumentsEvaluate(run: Runner, s: Snapshot, xs: seq<Value>)
    ensures EvalSpec(run, s, Args(xs)) ==
      match LookupAll(s.scopes, Keys(xs))
      case Ok(vs) => Ok(Step(List(vs), s))
      case Err(e) => Err(e)
  {
    LiteralItems(run, s, "arguments", xs, |xs| + 1);
    assert Keys(xs)[..|xs|] == Keys(xs);
    EvalTagged(run, s, Args(xs), ArgumentsOp);
    ArgumentsOpSpec(run, s, Keys(xs));
  }

  /** `NAME(name)` of a built-in's name evaluates to that built-in and changes nothing. */
  lemma {:induction false} NameEvaluates(run: Runner, s: Snapshot, b: Registry.Builtin)
    ensures EvalSpec(run, s, Name(Str(Registry.Name(b)))) == Ok(Step(BuiltinRef(b), s))
  {
    var x := Str(Registry.Name(b));
    assert Name(x) == Tagged("name", [x]);
    LiteralItems(run, s, "name", [x], 2);
    assert Keys([x])[..1] == [Tree(L(x))];
    EvalTagged(run, s, Name(x), NameOp);
    NameOpSpec(run, s, Tree(L(x)));
    NameLookupSpec(Tree(L(x)), b);
  }

  /** The name and the argument list of a wrapper call evaluate first, in that order. */
  lemma {:induction false} WrapperItems(run: Runner, s: Snapshot, b: Registry.Builtin, xs: seq<Value>)
    ensures EvalItems(run, s, Wrapper(b, xs), 3) ==
      match LookupAll(s.scopes, Keys(xs))
      case Ok(vs) => Ok(Evaluated([BuiltinRef(b), List(vs)], s))
      case Err(e) => Err(e)
  {
    var e := Wrapper(b, xs);
    assert e.items == [Str("call_builtin"), Name(Str(Registry.Name(b))), Args(xs)];
    NameEvaluates(run, s, b);
    ItemsStep(run, s, e, 1);
    assert EvalItems(run, s, e, 1) == Ok(Evaluated([], s));
    assert EvalSpec(run, s, e.items[1]) == Ok(Step(BuiltinRef(b), s));
    assert [] + [BuiltinRef(b)] == [BuiltinRef(b)];
    assert EvalItems(run, s, e, 2) == Ok(Evaluated([BuiltinRef(b)], s));
    ArgumentsEvaluate(run, s, xs);
    ItemsStep(run, s, e, 2);
    var r := LookupAll(s.scopes, Keys(xs));
    if r.Ok? {
      assert [BuiltinRef(b)] + [List(r.value)] == [BuiltinRef(b), List(r.value)];
    }
  }

  /**
   * A built-in's wrapper call, `CALL_BUILTIN(name, *xs)`, evaluates as the
   * built-in run on the values its arguments are bound to; an argument that
   * is bound nowhere fails the lookup and nothing runs.
   */
  lemma {:induction false} WrapperEvaluates(run: Runner, s: Snapshot, b: Registry.Builtin, xs: seq<Value>)
    ensures EvalSpec(run, s, Wrapper(b, xs)) ==
      match LookupAll(s.scopes, Keys(xs))
      case Ok(vs) => CallSpec(run, s, BuiltinRef(b), List(vs))
      case Err(e) => Err(e)
  {
    var e := Wrapper(b, xs);
    WrapperItems(run, s, b, xs);
    if LookupAll(s.scopes, Keys(xs)).Ok? {
      WrapperRuns(run, s, b, xs, LookupAll(s.scopes, Keys(xs)).value);
    } else {
      EvalCompound(run, s, e);
    }
  }

  /** `call_builtin` is the tag of a wrapper, and its handler takes two arguments. */
  lemma {:induction false} CallBuiltinTag()
    ensures OpName(CallBuiltinOp) == "call_builtin" && Fits(CallBuiltinOp, 2)
  {
  }

  /** The successful half of `WrapperEvaluates`. */
  lemma {:induction false} WrapperRuns(run: Runner, s: Snapshot, b: Registry.Builtin, xs: seq<Value>, vs: seq<Obj>)
    requires EvalItems(run, s, Wrapper(b, xs), 3) == Ok(Evaluated([BuiltinRef(b), List(vs)], s))
    ensures EvalSpec(run, s, Wrapper(b, xs)) == CallSpec(run, s, BuiltinRef(b), List(vs))
  {
    var e := Wrapper(b, xs);
    CallBuiltinTag();
    assert e.items[0] == Str(OpName(CallBuiltinOp));
    assert Unliteral(e).None?;
    EvalTagged(run, s, e, CallBuiltinOp);
    CallOpSpec(run, s, BuiltinRef(b), List(vs));
  }

  /** Constant arguments as the built-ins receive them. */
  function Trees(xs: seq<Value>): seq<Obj>
  {
    seq(|xs|, i requires 0 <= i < |xs| => Tree(xs[i]))
  }

  /** Constants that no scope has bound as a name resolve, through `BaseEnv`, to themselves. */
  lemma {:induction false} ConstantArguments(scopes: seq<Scope>, xs: seq<Value>)
    requires forall i :: 0 <= i < |xs| ==> IsBaseConstant(xs[i])
    requires forall i, j :: 0 <= i < |xs| && 0 <= j < |scopes| ==> Tree(L(xs[i])) !in scopes[j].bound
    ensures LookupAll(scopes, Keys(xs)) == Ok(Trees(xs))
    ensures ArgValues(List(Trees(xs))) == Some(xs)
  {
    forall i | 0 <= i < |xs|
      ensures LookupIn(scopes, Keys(xs)[i]) == Ok(Tree(xs[i]))
    {
      LookupFallsThrough(scopes, Tree(L(xs[i])));
      ConstantResolves(xs[i]);
    }
    LookupAllSpec(scopes, Keys(xs));
    var vs := LookupAll(scopes, Keys(xs)).value;
    assert |vs| == |Keys(xs)| == |xs|;
    assert forall i :: 0 <= i < |xs| ==> vs[i] == Trees(xs)[i];
    assert vs == Trees(xs);
    var ts := Trees(xs);
    assert forall i :: 0 <= i < |ts| ==> ts[i].Tree? && ts[i].v == xs[i];
    assert ArgValues(List(ts)).value == xs;
  }

  /**
   * Called with constants that no scope has bound as names, a built-in's
   * wrapper runs the built-in on exactly those constants: the value is
   * `None` and the state is the one the built-in leaves, or the call fails
   * with the built-in's error.
   */
  lemma {:induction false} WrapperOnConstants(n: int, s: Snapshot, b: Registry.Builtin, xs: seq<Value>)
    requires forall i :: 0 <= i < |xs| ==> IsBaseConstant(xs[i])
    requires forall i, j :: 0 <= i < |xs| && 0 <= j < |s.scopes| ==> Tree(L(xs[i])) !in s.scopes[j].bound
    ensures EvalSpec(BuiltinsOn(n), s, Wrapper(b, xs)) ==
      match BuiltinsOn(n)(s, b, xs)
      case Ok(t) => Ok(Step(Nothing, t))
      case Err(e) => Err(e)
  {
    WrapperEvaluates(BuiltinsOn(n), s, b, xs);
    ConstantArguments(s.scopes, xs);
  }

  /** The state `compile_phase_2` starts from: no scope, no cell occupied, no code, cursor and frame at 0. */
  const Initial := Snapshot([], {}, [], 0, 0, [])

  /** The statements evaluated in turn, each in the state the previous one left; the first failure is the result. */
  ghost function EvalStatements(run: Runner, s: Snapshot, stmts: seq<Value>): Result<Snapshot>
    decreases |stmts|
  {
    if stmts == [] then Ok(s)
    else
      var v :- EvalSpec(run, s, stmts[0]);
      EvalStatements(run, v.after, stmts[1..])
  }

  /** The first statement, then the rest from the state it left. */
  lemma {:induction false} StatementsFirst(run: Runner, s: Snapshot, stmts: seq<Value>)
    requires stmts != []
    ensures EvalStatements(run, s, stmts) ==
      match EvalSpec(run, s, stmts[0])
      case Ok(v) => EvalStatements(run, v.after, stmts[1..])
      case Err(e) => Err(e)
  {
  }

  /**
   * A body that evaluates only appends to the code, and from the initial
   * state leaves valid code: Brainfuck instructions only, no `]` without
   * its `[`, and one open loop per loop-stack entry.
   */
  lemma {:induction false} StatementsKeep(run: Runner, s: Snapshot, stmts: seq<Value>)
    requires RunKeeps(run) && EvalStatements(run, s, stmts).Ok?
    ensures s.code <= EvalStatements(run, s, stmts).value.code
    ensures ValidAt(s) ==> ValidAt(EvalStatements(run, s, stmts).value)
    decreases |stmts|
  {
    if stmts != [] {
      StatementsFirst(run, s, stmts);
      var t := EvalSpec(run, s, stmts[0]).value.after;
      EvalKeeps(run, s, stmts[0]);
      StatementsKeep(run, t, stmts[1..]);
    }
  }

  // ---------------------------------------------------------------------------
  // CompilerState

  class CompilerState {
    var scopes: seq<Scope>
    const sm: Allocator.StackMan
    const machine: Codegen.Machine

    /** `CompilerState(BaseEnv(), stack_man, machine)`. */
    constructor (stackMan: Allocator.StackMan, m: Codegen.Machine)
      ensures scopes == [] && sm == stackMan && machine == m
    {
      scopes := [];
      sm := stackMan;
      machine := m;
    }

    /** The machine's code is valid for its loop stack. */
    ghost predicate Valid()
      reads this, machine
    {
      machine.Valid()
    }

    /** The part of the state the handlers read or change. */
    ghost function Snap(): Snapshot
      reads this, sm, machine
    {
      Snapshot(scopes, sm.cells, machine.code, machine.bfPtr, machine.stackPtr, machine.loopStack)
    }

    /** `do_env_begin`. */
    method EnvBegin()
      modifies this
      ensures scopes == Pushed(old(scopes))
    {
      scopes := Pushed(scopes);
    }

    /** `do_free_local`. */
    method FreeLocal(x: Obj) returns (o: Outcome)
      modifies sm
      ensures match Release(old(sm.cells), x)
        case Ok(c) => o == Pass && sm.cells == c
        case Err(e) => o == Fail(e) && sm.cells == old(sm.cells)
    {
      if !x.Tree? {
        return Fail(Malformed);
      }
      o := sm.FreeLocal(x.v);
    }

    /** `do_env_end`: the innermost deallocation list freed in order, then the scope dropped. */
    method EnvEnd() returns (o: Outcome)
      modifies this, sm
      ensures old(scopes) == [] ==> o == Fail(RootScope) && scopes == old(scopes) && sm.cells == old(sm.cells)
      ensures old(scopes) != [] ==>
        match ReleaseAll(old(sm.cells), old(scopes)[|old(scopes)| - 1].releases)
        case Ok(c) => o == Pass && sm.cells == c && scopes == old(scopes)[..|old(scopes)| - 1]
        case Err(e) => o == Fail(e)
    {
      if scopes == [] {
        return Fail(RootScope);
      }
      var xs := scopes[|scopes| - 1].releases;
      for i := 0 to |xs|
        invariant scopes == old(scopes)
        invariant ReleaseAll(old(sm.cells), xs) == ReleaseAll(sm.cells, xs[i..])
      {
        assert xs[i..][0] == xs[i] && xs[i..][1..] == xs[i + 1..];
        var r := FreeLocal(xs[i]);
        if r.Fail? {
          return r;
        }
      }
      assert xs[|xs|..] == [];
      scopes := scopes[..|scopes| - 1];
      o := Pass;
    }

    /** `do_env_declare`. */
    method Declare(key: Obj) returns (o: Outcome)
      modifies this
      ensures Declared(old(scopes), key).Ok? ==> o == Pass && scopes == Declared(old(scopes), key).value
      ensures Declared(old(scopes), key).Err? ==> o == Fail(Declared(old(scopes), key).error) && scopes == old(scopes)
    {
      var d := Declared(scopes, key);
      if d.Err? {
        return Fail(d.error);
      }
      scopes := d.value;
      o := Pass;
    }

    /** `do_env_set`. */
    method Set(key: Obj, value: Obj) returns (o: Outcome)
      modifies this
      ensures Assigned(old(scopes), key, value).Ok? ==> o == Pass && scopes == Assigned(old(scopes), key, value).value
      ensures Assigned(old(scopes), key, value).Err? ==> o == Fail(Assigned(old(scopes), key, value).error) && scopes == old(scopes)
    {
      var a := Assigned(scopes, key, value);
      if a.Err? {
        return Fail(a.error);
      }
      scopes := a.value;
      o := Pass;
    }

    /** `do_free_local_on_env_exit`. */
    method FreeOnExit(x: Obj) returns (o: Outcome)
      modifies this
      ensures Deferred(old(scopes), x).Ok? ==> o == Pass && scopes == Deferred(old(scopes), x).value
      ensures Deferred(old(scopes), x).Err? ==> o == Fail(Deferred(old(scopes), x).error) && scopes == old(scopes)
    {
      var f := Deferred(scopes, x);
      if f.Err? {
        return Fail(f.error);
      }
      scopes := f.value;
      o := Pass;
    }

    /** `do_allocate_local`. */
    method AllocateLocal() returns (r: Obj)
      modifies sm
      ensures r == Tree(Allocator.AddressOf(Allocator.LeastFree(old(sm.cells))))
      ensures sm.cells == old(sm.cells) + {Allocator.LeastFree(old(sm.cells))}
    {
      var a := sm.AllocateLocal();
      r := Tree(a);
    }

    /** `do_call_macro`: the built-in run on the machine and the allocator with the argument list. */
    method CallBuiltin(f: Obj, args: Obj) returns (o: Outcome)
      modifies sm, machine
      ensures !f.BuiltinRef? ==> o == Fail(NotCallable) && unchanged(sm) && unchanged(machine)
      ensures f.BuiltinRef? && ArgValues(args).None? ==> o == Fail(Malformed) && unchanged(sm) && unchanged(machine)
      ensures f.BuiltinRef? && ArgValues(args).Some? && |ArgValues(args).value| != Registry.Arity(f.b) ==>
        o == Fail(ArityMismatch) && unchanged(sm) && unchanged(machine)
      ensures f.BuiltinRef? && ArgValues(args).Some? && |ArgValues(args).value| == Registry.Arity(f.b) ==>
        BuiltinCode.Performs(o, Registry.BuiltinResult(machine.nCells, old(machine.stackPtr), old(machine.bfPtr),
                                                      old(machine.loopStack), old(sm.cells), f.b, ArgValues(args).value),
                             old(machine.code), machine.code, machine.bfPtr)
      ensures old(machine.Valid()) && o.Pass? ==> machine.Valid()
      ensures ValueOf(CallSpec(BuiltinsOn(machine.nCells), old(Snap()), f, args)) == AsResult(o)
      ensures o.Pass? ==> Snap() == CallSpec(BuiltinsOn(machine.nCells), old(Snap()), f, args).value.after
    {
      if !f.BuiltinRef? {
        return Fail(NotCallable);
      }
      var vals := ArgValues(args);
      if vals.None? {
        return Fail(Malformed);
      }
      o := Registry.Invoke(machine, sm, f.b, vals.value);
    }

    /** The handlers that only look things up: nothing changes. */
    method Query(op: Op, args: seq<Obj>) returns (r: Result<Obj>)
      requires op.EnvGetOp? || op.OuterEnvGetOp? || op.ArgumentsOp? || op.NameOp?
      requires Fits(op, |args|)
      ensures r == ValueOf(OpSpec(BuiltinsOn(machine.nCells), Snap(), op, args))
      ensures r.Ok? ==> OpSpec(BuiltinsOn(machine.nCells), Snap(), op, args).value.after == Snap()
    {
      match op
      case EnvGetOp =>
        r := LookupIn(scopes, args[0]);
      case OuterEnvGetOp =>
        r := OuterLookup(scopes, args[0]);
      case ArgumentsOp =>
        var vs := LookupAll(scopes, args);
        r := if vs.Ok? then Ok(List(vs.value)) else Err(vs.error);
      case NameOp =>
        r := NameLookup(args[0]);
    }

    /** The handlers that open, close or change a scope. */
    method ChangeScopes(op: Op, args: seq<Obj>) returns (r: Result<Obj>)
      requires op.EnvBeginOp? || op.EnvEndOp? || op.EnvDeclareOp? || op.EnvSetOp?
      requires Fits(op, |args|)
      modifies this, sm
      ensures r == ValueOf(OpSpec(BuiltinsOn(machine.nCells), old(Snap()), op, args))
      ensures r.Ok? ==> Snap() == OpSpec(BuiltinsOn(machine.nCells), old(Snap()), op, args).value.after
      ensures old(Valid()) ==> Valid()
    {
      match op
      case EnvBeginOp =>
        EnvBegin();
        r := Ok(Nothing);
      case EnvEndOp =>
        var o := EnvEnd();
        r := AsResult(o);
      case EnvDeclareOp =>
        var o := Declare(args[0]);
        r := AsResult(o);
      case EnvSetOp =>
        var o := Set(args[0], args[1]);
        r := AsResult(o);
    }

    /** The handlers that allocate or free cells, or run a built-in. */
    method ChangeCells(op: Op, args: seq<Obj>) returns (r: Result<Obj>)
      requires op.AllocateLocalOp? || op.FreeLocalOp? || op.FreeOnExitOp? || op.CallBuiltinOp?
      requires Fits(op, |args|)
      modifies this, sm, machine
      ensures r == ValueOf(OpSpec(BuiltinsOn(machine.nCells), old(Snap()), op, args))
      ensures r.Ok? ==> Snap() == OpSpec(BuiltinsOn(machine.nCells), old(Snap()), op, args).value.after
      ensures old(Valid()) && r.Ok? ==> Valid()
    {
      match op
      case AllocateLocalOp =>
        var a := AllocateLocal();
        r := Ok(a);
      case FreeLocalOp =>
        var o := FreeLocal(args[0]);
        r := AsResult(o);
      case FreeOnExitOp =>
        var o := FreeOnExit(args[0]);
        r := AsResult(o);
      case CallBuiltinOp =>
        var o := CallBuiltin(args[0], args[1]);
        r := AsResult(o);
    }

    /** The handler for a known operation, given arguments it accepts: exactly what `OpSpec` says. */
    method DispatchOp(op: Op, args: seq<Obj>) returns (r: Result<Obj>)
      requires Fits(op, |args|)
      modifies this, sm, machine
      ensures r == ValueOf(OpSpec(BuiltinsOn(machine.nCells), old(Snap()), op, args))
      ensures r.Ok? ==> Snap() == OpSpec(BuiltinsOn(machine.nCells), old(Snap()), op, args).value.after
      ensures old(Valid()) && r.Ok? ==> Valid()
    {
      if op.EnvGetOp? || op.OuterEnvGetOp? || op.ArgumentsOp? || op.NameOp? {
        r := Query(op, args);
      } else if op.EnvBeginOp? || op.EnvEndOp? || op.EnvDeclareOp? || op.EnvSetOp? {
        r := ChangeScopes(op, args);
      } else {
        r := ChangeCells(op, args);
      }
    }

    /**
     * `dispatch`: the handler for the tag, given the evaluated arguments; an
     * unknown tag or a wrong number of arguments fails before any handler runs.
     */
    method Dispatch(tag: Value, args: seq<Obj>) returns (r: Result<Obj>)
      modifies this, sm, machine
      ensures r == ValueOf(DispatchSpec(BuiltinsOn(machine.nCells), old(Snap()), tag, args))
      ensures r.Ok? ==> Snap() == DispatchSpec(BuiltinsOn(machine.nCells), old(Snap()), tag, args).value.after
      ensures ParseOp(tag).None? ==> unchanged(this) && unchanged(sm) && unchanged(machine)
      ensures ParseOp(tag).Some? && !Fits(ParseOp(tag).value, |args|) ==> unchanged(this) && unchanged(sm) && unchanged(machine)
      ensures old(Valid()) && r.Ok? ==> Valid()
    {
      var op := ParseOp(tag);
      if op.None? {
        return Err(UnknownOperation);
      }
      if !Fits(op.value, |args|) {
        return Err(ArityMismatch);
      }
      r := DispatchOp(op.value, args);
    }

    /**
     * `eval_expr`: a literal evaluates to itself; any other expression must
     * be a non-empty tuple, whose elements after the head are evaluated left
     * to right and handed to the head's handler.  The value, the error and,
     * on success, the new state are the ones `EvalSpec` gives.
     */
    method EvalExpr(e: Value) returns (r: Result<Obj>)
      modifies this, sm, machine
      decreases e, 1
      ensures r == ValueOf(EvalSpec(BuiltinsOn(machine.nCells), old(Snap()), e))
      ensures r.Ok? ==> Snap() == EvalSpec(BuiltinsOn(machine.nCells), old(Snap()), e).value.after
      ensures old(Valid()) && r.Ok? ==> Valid()
    {
      var lit := AttemptMatch(LiteralPattern(Star("x")), e);
      MatchLiteral("x", e);
      if lit.Some? {
        assert e == L(e.items[1]) by { assert e.items == [e.items[0], e.items[1]]; }
        return Ok(Tree(L(lit.value["x"])));
      }
      var ht := AttemptMatch(Cons(Star("head"), Star("tail")), e);
      HeadTailMatch(e);
      if ht.None? {
        return Err(Malformed);
      }
      assert e.items[0] == ht.value["head"];
      var args := EvalItemsFrom(e);
      if args.Err? {
        return Err(args.error);
      }
      r := Dispatch(ht.value["head"], args.value);
    }

    /** The statement loop of `compile_phase_2`: each statement evaluated in turn; the first failure stops it. */
    method EvalBody(stmts: seq<Value>) returns (o: Outcome)
      modifies this, sm, machine
      ensures var spec := EvalStatements(BuiltinsOn(machine.nCells), old(Snap()), stmts);
        (spec.Ok? <==> o.Pass?) && (spec.Ok? ==> Snap() == spec.value) && (spec.Err? ==> o == Fail(spec.error))
    {
      ghost var run, s0 := BuiltinsOn(machine.nCells), Snap();
      for i := 0 to |stmts|
        invariant EvalStatements(run, s0, stmts) == EvalStatements(run, Snap(), stmts[i..])
      {
        ghost var t := Snap();
        StatementsFirst(run, t, stmts[i..]);
        assert stmts[i..][0] == stmts[i] && stmts[i..][1..] == stmts[i + 1..];
        var v := EvalExpr(stmts[i]);
        if v.Err? {
          return Fail(v.error);
        }
      }
      assert stmts[|stmts|..] == [];
      o := Pass;
    }

    /** The list comprehension of `eval_expr`: the elements after the head, evaluated left to right. */
    method EvalItemsFrom(e: Value) returns (r: Result<seq<Obj>>)
      requires e.Seq? && |e.items| >= 1
      modifies this, sm, machine
      decreases e, 0
      ensures var spec := EvalItems(BuiltinsOn(machine.nCells), old(Snap()), e, |e.items|);
        r == (if spec.Ok? then Ok(spec.value.values) else Err(spec.error)) && (r.Ok? ==> Snap() == spec.value.after)
      ensures old(Valid()) && r.Ok? ==> Valid()
    {
      ghost var run, s0 := BuiltinsOn(machine.nCells), Snap();
      var args: seq<Obj> := [];
      for i := 1 to |e.items|
        invariant EvalItems(run, s0, e, i) == Ok(Evaluated(args, Snap()))
        invariant old(Valid()) ==> Valid()
      {
        var a := EvalExpr(e.items[i]);
        if a.Err? {
          ItemsFailure(run, s0, e, i + 1, |e.items|);
          return Err(a.error);
        }
        ItemsStep(run, s0, e, i);
        args := args + [a.value];
      }
      r := Ok(args);
    }
  }

  /** A handler's `None` result, or its failure. */
  function AsResult(o: Outcome): Result<Obj>
  {
    if o.Pass? then Ok(Nothing) else Err(o.error)
  }

  /** One more element evaluated in the state the earlier ones left. */
  lemma {:induction false} ItemsStep(run: Runner, s: Snapshot, e: Value, k: nat)
    requires e.Seq? && 1 <= k < |e.items| && EvalItems(run, s, e, k).Ok?
    ensures EvalItems(run, s, e, k + 1) ==
      var a := EvalItems(run, s, e, k).value;
      var v := EvalSpec(run, a.after, e.items[k]);
      if v.Ok? then Ok(Evaluated(a.values + [v.value.value], v.value.after)) else Err(v.error)
  {
  }

  /** Once one element of a tuple fails to evaluate, evaluating more elements fails the same way. */
  lemma {:induction false} ItemsFailure(run: Runner, s: Snapshot, e: Value, k: nat, k': nat)
    requires e.Seq? && 1 <= k <= k' <= |e.items| && EvalItems(run, s, e, k).Err?
    ensures EvalItems(run, s, e, k') == Err(EvalItems(run, s, e, k).error)
    decreases k' - k
  {
    if k < k' {
      ItemsFailure(run, s, e, k, k' - 1);
    }
  }

  /** `Cons(Star('head'), Star('tail'))` splits any non-empty tuple into its head and the rest. */
  lemma {:induction false} HeadTailMatch(e: Value)
    ensures AttemptMatch(Cons(Star("head"), Star("tail")), e) ==
      if e.Seq? && |e.items| >= 1 then Some(map["head" := e.items[0], "tail" := Seq(e.items[1..])]) else None
  {
    if e.Seq? && |e.items| >= 1 {
      ToMapTwo("head", e.items[0], "tail", Seq(e.items[1..]));
      assert [("head", e.items[0])] + [("tail", Seq(e.items[1..]))] == [("head", e.items[0]), ("tail", Seq(e.items[1..]))];
    }
  }

  /** The tape length `compile_phase_2` uses. */
  const NCells := 30000

  /**
   * What `compile_phase_2` prints for a main macro: its statements evaluated
   * in turn from the initial state on a tape of `NCells` cells, and the
   * code they emit cut into lines; or the first error.
   */
  ghost function Compiled(macro: Value): Result<string>
  {
    match DecodeMacro(macro)
    case None => Err(Malformed)
    case Some(parts) =>
      var t :- EvalStatements(BuiltinsOn(NCells), Initial, parts.statements);
      Ok(Joined(Lines(Codegen.Text(t.code))))
  }

  /**
   * A successful compilation is Brainfuck code cut into lines: with the
   * newlines removed it is instructions only, with no `]` before its `[`,
   * and the output is exactly that code cut into 70-column lines.
   */
  lemma {:induction false} CompiledShape(macro: Value)
    requires Compiled(macro).Ok?
    ensures var c := DropNewlines(Compiled(macro).value);
      AllOpcodes(c) && Wellbracketed(c) && Compiled(macro).value == Joined(Lines(c))
  {
    var stmts := DecodeMacro(macro).value.statements;
    RunnerKeeps(NCells);
    assert Codegen.Text([]) == "" && ""[..0] == "";
    assert ValidAt(Initial);
    StatementsKeep(BuiltinsOn(NCells), Initial, stmts);
    var text := Codegen.Text(EvalStatements(BuiltinsOn(NCells), Initial, stmts).value.code);
    FormatRoundTrip(text);
  }

  /** `compile_phase_2`: the main macro's statements evaluated against a fresh state, then the code formatted. */
  method CompilePhase2(macro: Value) returns (r: Result<string>)
    ensures r == Compiled(macro)
  {
    var stack := new Allocator.StackMan();
    var m := new Codegen.Machine(NCells);
    var state := new CompilerState(stack, m);
    var parts := DecodeMacro(macro);
    if parts.None? {
      return Err(Malformed);
    }
    var o := state.EvalBody(parts.value.statements);
    if o.Fail? {
      return Err(o.error);
    }
    var text := Codegen.Text(m.code);
    var out := FormattedCode(text);
    r := Ok(out);
  }
}
