/**
 * The constructors of the macro language's intermediate form: tuple-shaped
 * trees whose first element is a tag. Every constructor has a decoder that
 * takes the tree apart again, and the decoders agree with the structural
 * patterns the rewriter and the evaluator use to read these shapes back.
 */
module Sugar {
  import opened Wrappers
  import opened PatternMatch
  import Codegen
  import Allocator
  import Registry

  // ---------------------------------------------------------------------------
  // Literals

  /** `L(x)`: `('literal', x)`. */
  function L(x: Value): Value
  {
    Seq([Str("literal"), x])
  }

  /** The payload of a literal, if `v` is one. */
  function Unliteral(v: Value): Option<Value>
  {
    if v.Seq? && |v.items| == 2 && v.items[0] == Str("literal") then Some(v.items[1]) else None
  }

  /** `L` and `Unliteral` are inverse: a literal is exactly `L` of its payload. */
  lemma {:induction false} LiteralRoundTrip(x: Value, v: Value)
    ensures Unliteral(L(x)) == Some(x)
    ensures Unliteral(v).Some? ==> L(Unliteral(v).value) == v
  {
    if Unliteral(v).Some? {
      assert v.items == [Str("literal"), v.items[1]];
    }
  }

  /** `list(map(L, xs))`. */
  function Literals(xs: seq<Value>): seq<Value>
  {
    seq(|xs|, i requires 0 <= i < |xs| => L(xs[i]))
  }

  /** Every element a literal: their payloads, in order. */
  function Unliterals(vs: seq<Value>): Option<seq<Value>>
  {
    if vs == [] then Some([])
    else
      match (Unliteral(vs[0]), Unliterals(vs[1..]))
      case (Some(x), Some(rest)) => Some([x] + rest)
      case _ => None
  }

  lemma {:induction false} UnliteralsRoundTrip(xs: seq<Value>, vs: seq<Value>)
    ensures Unliterals(Literals(xs)) == Some(xs)
    ensures Unliterals(vs).Some? ==> Literals(Unliterals(vs).value) == vs
    decreases |xs| + |vs|
  {
    if xs != [] {
      assert Literals(xs)[1..] == Literals(xs[1..]);
      LiteralRoundTrip(xs[0], Str(""));
      UnliteralsRoundTrip(xs[1..], []);
      assert [xs[0]] + xs[1..] == xs;
    }
    if vs != [] && Unliterals(vs).Some? {
      UnliteralsRoundTrip([], vs[1..]);
      LiteralRoundTrip(Str(""), vs[0]);
      var ys := Unliterals(vs).value;
      assert ys == [Unliteral(vs[0]).value] + Unliterals(vs[1..]).value;
      assert Literals(ys)[0] == vs[0];
      assert Literals(ys)[1..] == Literals(Unliterals(vs[1..]).value);
      assert Literals(ys) == [Literals(ys)[0]] + Literals(ys)[1..];
      assert vs == [vs[0]] + vs[1..];
    }
  }

  // ---------------------------------------------------------------------------
  // Tagged argument lists

  /** A tag followed by every element wrapped in `L`, in order. */
  function Tagged(tag: string, xs: seq<Value>): Value
  {
    Seq([Str(tag)] + Literals(xs))
  }

  /** `PARAMS(*params)`. */
  function Params(ps: seq<Value>): Value
  {
    Tagged("parameters", ps)
  }

  /** `ARGS(*args)`. */
  function Args(xs: seq<Value>): Value
  {
    Tagged("arguments", xs)
  }

  /** The payloads of a tagged argument list. */
  function DecodeTagged(tag: string, v: Value): Option<seq<Value>>
  {
    if v.Seq? && |v.items| >= 1 && v.items[0] == Str(tag) then Unliterals(v.items[1..]) else None
  }

  /**
   * A tagged list holds the same elements, in the same order, as the arguments
   * it was built from, and every decodable tagged list is one so built.
   */
  lemma {:induction false} TaggedRoundTrip(tag: string, xs: seq<Value>, v: Value)
    ensures DecodeTagged(tag, Tagged(tag, xs)) == Some(xs)
    ensures DecodeTagged(tag, v).Some? ==> Tagged(tag, DecodeTagged(tag, v).value) == v
  {
    assert ([Str(tag)] + Literals(xs))[1..] == Literals(xs);
    UnliteralsRoundTrip(xs, []);
    if DecodeTagged(tag, v).Some? {
      UnliteralsRoundTrip([], v.items[1..]);
      assert v.items == [Str(tag)] + v.items[1..];
    }
  }

  // ---------------------------------------------------------------------------
  // Names, calls, bodies and macros

  /** `NAME(x)`: `('name', L(x))`. */
  function Name(x: Value): Value
  {
    Seq([Str("name"), L(x)])
  }

  /** `LOCAL(x)`: `('local', L(x))`. */
  function Local(x: Value): Value
  {
    Seq([Str("local"), L(x)])
  }

  /** The argument of a `tag`-node whose only element is a literal, as `NAME` and `LOCAL` build. */
  function DecodeWrapped(tag: string, v: Value): Option<Value>
  {
    if v.Seq? && |v.items| == 2 && v.items[0] == Str(tag) then Unliteral(v.items[1]) else None
  }

  lemma {:induction false} WrappedRoundTrip(x: Value, v: Value)
    ensures DecodeWrapped("name", Name(x)) == Some(x)
    ensures DecodeWrapped("local", Local(x)) == Some(x)
    ensures DecodeWrapped("name", v).Some? ==> Name(DecodeWrapped("name", v).value) == v
    ensures DecodeWrapped("local", v).Some? ==> Local(DecodeWrapped("local", v).value) == v
  {
    LiteralRoundTrip(x, Str(""));
    if v.Seq? && |v.items| == 2 {
      LiteralRoundTrip(x, v.items[1]);
      assert v.items == [v.items[0], v.items[1]];
    }
  }

  /** `CALL(name, *args)`: `('call_macro', NAME(name), ARGS(*args))`. */
  function Call(name: Value, args: seq<Value>): Value
  {
    Seq([Str("call_macro"), Name(name), Args(args)])
  }

  /** `CALL_BUILTIN(name, *args)`: `('call_builtin', NAME(name), ARGS(*args))`. */
  function CallBuiltin(name: Value, args: seq<Value>): Value
  {
    Seq([Str("call_builtin"), Name(name), Args(args)])
  }

  /** The name and the argument payloads of a `tag`-node shaped as `CALL` builds it. */
  function DecodeCall(tag: string, v: Value): Option<(Value, seq<Value>)>
  {
    if v.Seq? && |v.items| == 3 && v.items[0] == Str(tag) then
      match (DecodeWrapped("name", v.items[1]), DecodeTagged("arguments", v.items[2]))
      case (Some(n), Some(xs)) => Some((n, xs))
      case _ => None
    else None
  }

  /** Calls decode to the name and arguments they were built from, and only calls decode. */
  lemma {:induction false} CallRoundTrip(name: Value, args: seq<Value>, v: Value)
    ensures DecodeCall("call_macro", Call(name, args)) == Some((name, args))
    ensures DecodeCall("call_builtin", CallBuiltin(name, args)) == Some((name, args))
    ensures DecodeCall("call_macro", v).Some? ==> Call(DecodeCall("call_macro", v).value.0, DecodeCall("call_macro", v).value.1) == v
    ensures DecodeCall("call_builtin", v).Some? ==>
      CallBuiltin(DecodeCall("call_builtin", v).value.0, DecodeCall("call_builtin", v).value.1) == v
  {
    WrappedRoundTrip(name, Str(""));
    TaggedRoundTrip("arguments", args, Str(""));
    if v.Seq? && |v.items| == 3 {
      WrappedRoundTrip(name, v.items[1]);
      TaggedRoundTrip("arguments", args, v.items[2]);
      assert v.items == [v.items[0], v.items[1], v.items[2]];
    }
  }

  /** `BODY(*statements)`: `('body', statements...)`. */
  function Body(stmts: seq<Value>): Value
  {
    Seq([Str("body")] + stmts)
  }

  function DecodeBody(v: Value): Option<seq<Value>>
  {
    if v.Seq? && |v.items| >= 1 && v.items[0] == Str("body") then Some(v.items[1..]) else None
  }

  lemma {:induction false} BodyRoundTrip(stmts: seq<Value>, v: Value)
    ensures DecodeBody(Body(stmts)) == Some(stmts)
    ensures DecodeBody(v).Some? ==> Body(DecodeBody(v).value) == v
  {
    assert ([Str("body")] + stmts)[1..] == stmts;
    if DecodeBody(v).Some? {
      assert v.items == [Str("body")] + v.items[1..];
    }
  }

  /** `MACRO(name, *params)(*body)`: `('user_macro', NAME(name), PARAMS(*params), BODY(*body))`. */
  function Macro(name: Value, params: seq<Value>, body: seq<Value>): Value
  {
    Seq([Str("user_macro"), Name(name), Params(params), Body(body)])
  }

  /** The three parts a user macro is taken apart into: its name node, its parameter node and its statements. */
  datatype MacroParts = MacroParts(name: Value, params: Value, statements: seq<Value>)

  /** `('user_macro', name, params, ('body', statements...))` as the rewriter reads it. */
  function DecodeMacro(v: Value): Option<MacroParts>
  {
    if v.Seq? && |v.items| == 4 && v.items[0] == Str("user_macro") then
      match DecodeBody(v.items[3])
      case Some(stmts) => Some(MacroParts(v.items[1], v.items[2], stmts))
      case None => None
    else None
  }

  /** A user macro rebuilt from its parts. */
  function Rebuild(parts: MacroParts): Value
  {
    Seq([Str("user_macro"), parts.name, parts.params, Body(parts.statements)])
  }

  /** A macro decodes to its name node, its parameter node and its body, and decoding loses nothing. */
  lemma {:induction false} MacroRoundTrip(name: Value, params: seq<Value>, body: seq<Value>, v: Value)
    ensures DecodeMacro(Macro(name, params, body)) == Some(MacroParts(Name(name), Params(params), body))
    ensures DecodeMacro(v).Some? ==> Rebuild(DecodeMacro(v).value) == v
  {
    BodyRoundTrip(body, Str(""));
    if DecodeMacro(v).Some? {
      BodyRoundTrip([], v.items[3]);
      assert v.items == [v.items[0], v.items[1], v.items[2], v.items[3]];
    }
  }

  /** Rebuilding and decoding are inverse on the parts too. */
  lemma {:induction false} RebuildRoundTrip(parts: MacroParts)
    ensures DecodeMacro(Rebuild(parts)) == Some(parts)
  {
    BodyRoundTrip(parts.statements, Str(""));
  }

  // ---------------------------------------------------------------------------
  // Constants, hidden names, stack addresses

  /** `INT_CONSTANT(x)`. */
  function IntConstant(x: int): Value
  {
    Seq([Str("int_constant"), Int(x)])
  }

  /** `STRING_CONSTANT(x)`. */
  function StringConstant(s: string): Value
  {
    Seq([Str("string_constant"), Str(s)])
  }

  /** `CHAR_CONSTANT(c)`: an integer constant holding the character's code. */
  function CharConstant(c: char): Value
  {
    Seq([Str("int_constant"), Int(c as int)])
  }

  /** `HIDDEN(x)`: a name no user variable can collide with. */
  function Hidden(x: Value): Value
  {
    Seq([Str("hidden"), x])
  }

  /** `STACK_ADDRESS(x)`. */
  function StackAddress(x: Value): Value
  {
    Seq([Str("stack_address"), x])
  }

  /**
   * The constants built here are the ones the code generator recognises and
   * takes apart, and a stack address is the value the allocator hands out.
   */
  lemma {:induction false} ConstantsAgree(x: int, s: string, c: char)
    ensures CharConstant(c) == IntConstant(c as int)
    ensures Codegen.MatchConstant(IntConstant(x)) == Ok(x)
    ensures Codegen.MatchConstant(CharConstant(c)) == Ok(c as int)
    ensures Codegen.MatchStringConstant(StringConstant(s)) == Ok(s)
    ensures Codegen.MatchStackAddress(StackAddress(Int(x))) == Ok(x)
    ensures StackAddress(Int(x)) == Allocator.AddressOf(x)
    ensures Hidden(Str(s)) != Str(s) && Hidden(Str(s)) != L(Str(s))
  {
  }

  // ---------------------------------------------------------------------------
  // Blocks

  /** `WHILE(*args)(*body)`: `('while', ARGS(*args), BODY(*body))`. */
  function While(cond: seq<Value>, body: seq<Value>): Value
  {
    Seq([Str("while"), Args(cond), Body(body)])
  }

  /** `IF(*args)(*body)`: `('if', ARGS(*args), BODY(*body))`. */
  function If(cond: seq<Value>, body: seq<Value>): Value
  {
    Seq([Str("if"), Args(cond), Body(body)])
  }

  /** The condition payloads and the statements of a `tag`-block. */
  function DecodeBlock(tag: string, v: Value): Option<(seq<Value>, seq<Value>)>
  {
    if v.Seq? && |v.items| == 3 && v.items[0] == Str(tag) then
      match (DecodeTagged("arguments", v.items[1]), DecodeBody(v.items[2]))
      case (Some(c), Some(b)) => Some((c, b))
      case _ => None
    else None
  }

  lemma {:induction false} BlockRoundTrip(cond: seq<Value>, body: seq<Value>, v: Value)
    ensures DecodeBlock("while", While(cond, body)) == Some((cond, body))
    ensures DecodeBlock("if", If(cond, body)) == Some((cond, body))
    ensures DecodeBlock("while", v).Some? ==> While(DecodeBlock("while", v).value.0, DecodeBlock("while", v).value.1) == v
    ensures DecodeBlock("if", v).Some? ==> If(DecodeBlock("if", v).value.0, DecodeBlock("if", v).value.1) == v
  {
    TaggedRoundTrip("arguments", cond, Str(""));
    BodyRoundTrip(body, Str(""));
    if v.Seq? && |v.items| == 3 {
      TaggedRoundTrip("arguments", cond, v.items[1]);
      BodyRoundTrip(body, v.items[2]);
      assert v.items == [v.items[0], v.items[1], v.items[2]];
    }
  }

  // ---------------------------------------------------------------------------
  // Built-in wrappers

  /** The upper-cased wrapper registered for a built-in: `CALL_BUILTIN(name, *args)`. */
  function Wrapper(b: Registry.Builtin, args: seq<Value>): Value
  {
    CallBuiltin(Str(Registry.Name(b)), args)
  }

  /** `name.upper()` on ASCII. */
  function UpperChar(c: char): char
  {
    if 'a' <= c <= 'z' then (c as int - 32) as char else c
  }

  function LowerChar(c: char): char
  {
    if 'A' <= c <= 'Z' then (c as int + 32) as char else c
  }

  function Upper(s: string): string
  {
    seq(|s|, i requires 0 <= i < |s| => UpperChar(s[i]))
  }

  function Lower(s: string): string
  {
    seq(|s|, i requires 0 <= i < |s| => LowerChar(s[i]))
  }

  /** No upper-case ASCII letter. */
  predicate NoUpper(s: string)
  {
    forall i :: 0 <= i < |s| ==> !('A' <= s[i] <= 'Z')
  }

  /** The global name a built-in's wrapper is registered under. */
  function WrapperName(b: Registry.Builtin): string
  {
    Upper(Registry.Name(b))
  }

  /** Upper-casing a string without capitals loses nothing: lower-casing gives it back. */
  lemma {:induction false} UpperRoundTrip(s: string)
    requires NoUpper(s)
    ensures |Upper(s)| == |s|
    ensures Lower(Upper(s)) == s
  {
    assert forall i :: 0 <= i < |s| ==> LowerChar(UpperChar(s[i])) == s[i];
  }

  /** Every built-in name is non-empty and starts and ends with a lower-case letter. */
  lemma {:induction false} NameEnds(b: Registry.Builtin)
    ensures var s := Registry.Name(b); |s| > 0 && 'a' <= s[0] <= 'z' && 'a' <= s[|s| - 1] <= 'z'
  {
  }

  /**
   * Upper-casing a word that starts and ends with a lower-case letter lowers
   * both end codes by 32, so its signature drops by `32 * 256 + 32` = 8224.
   */
  lemma {:induction false} UpperSignature(s: string)
    requires |s| > 0 && 'a' <= s[0] <= 'z' && 'a' <= s[|s| - 1] <= 'z'
    ensures Registry.Signature(Upper(s)) == Registry.Signature(s) - 8224
  {
    var u := Upper(s);
    assert |u| == |s| && u[0] == UpperChar(s[0]) && u[|u| - 1] == UpperChar(s[|s| - 1]);
  }

  /** The signature of a wrapper name, from the signature of the built-in's name. */
  lemma {:induction false} WrapperSignature(b: Registry.Builtin)
    ensures Registry.Signature(WrapperName(b)) == Registry.NameSignature(b) - 8224
  {
    NameEnds(b);
    UpperSignature(Registry.Name(b));
    Registry.SignatureOfName(b);
  }

  /** The signatures of the built-in names are pairwise distinct. */
  lemma {:induction false} NameSignatureInjective(a: Registry.Builtin, b: Registry.Builtin)
    ensures Registry.NameSignature(a) == Registry.NameSignature(b) ==> a == b
  {
  }

  /** Two built-ins share a wrapper name exactly when they are the same built-in. */
  lemma {:induction false} WrapperNameInjective(a: Registry.Builtin, b: Registry.Builtin)
    ensures WrapperName(a) == WrapperName(b) <==> a == b
  {
    if WrapperName(a) == WrapperName(b) {
      WrapperSignature(a);
      WrapperSignature(b);
      NameSignatureInjective(a, b);
    }
  }

  /**
   * Calling a built-in's wrapper builds a `call_builtin` node that names the
   * built-in and carries the arguments in order, and that name looks the
   * built-in up again.
   */
  lemma {:induction false} WrapperCalls(b: Registry.Builtin, args: seq<Value>)
    ensures DecodeCall("call_builtin", Wrapper(b, args)) == Some((Str(Registry.Name(b)), args))
    ensures Registry.Lookup(Registry.Name(b)) == Ok(b)
  {
    CallRoundTrip(Str(Registry.Name(b)), args, Str(""));
    Registry.LookupName(b);
  }

  // ---------------------------------------------------------------------------
  // The source's structural patterns for these shapes

  /** `L(p)` applied to a pattern. */
  function LiteralPattern(p: Pattern): Pattern
  {
    PSeq([PStr("literal"), p])
  }

  /** A two-element tuple pattern whose first element is a tag. */
  lemma {:induction false} MatchTagPair(tag: string, p: Pattern, v: Value)
    ensures Match(PSeq([PStr(tag), p]), v) ==
      if v.Seq? && |v.items| == 2 && v.items[0] == Str(tag) then Match(p, v.items[1]) else None
  {
    if v.Seq? && |v.items| == 2 {
      assert v == Seq([v.items[0], v.items[1]]);
      MatchPair(PStr(tag), p, v.items[0], v.items[1]);
      if v.items[0] == Str(tag) && Match(p, v.items[1]).Some? {
        assert [] + Match(p, v.items[1]).value == Match(p, v.items[1]).value;
      }
    }
  }

  /** A one-element tuple pattern. */
  lemma {:induction false} MatchOneOf(p: Pattern, v: Value)
    ensures Match(PSeq([p]), v) == if v.Seq? && |v.items| == 1 then Match(p, v.items[0]) else None
  {
    if v.Seq? && |v.items| == 1 {
      assert v == Seq([v.items[0]]);
      MatchSingle(p, v.items[0]);
    }
  }

  /** `pm.match(L(pm.Star(n)))` finds exactly the payload `Unliteral` finds. */
  lemma {:induction false} MatchLiteral(n: string, v: Value)
    ensures AttemptMatch(LiteralPattern(Star(n)), v) ==
      match Unliteral(v) case None => None case Some(x) => Some(map[n := x])
  {
    MatchTagPair("literal", Star(n), v);
    if Unliteral(v).Some? {
      LeafPatterns(n, "", v.items[1]);
    }
  }

  /** A `Cons(tag, Star(n))` pattern binds `n` to everything after the tag. */
  lemma {:induction false} MatchConsTag(tag: string, n: string, v: Value)
    ensures Match(Cons(PStr(tag), Star(n)), v) ==
      if v.Seq? && |v.items| >= 1 && v.items[0] == Str(tag) then Some([(n, Seq(v.items[1..]))]) else None
  {
    if v.Seq? && |v.items| >= 1 && v.items[0] == Str(tag) {
      assert [] + [(n, Seq(v.items[1..]))] == [(n, Seq(v.items[1..]))];
    }
  }
}
