/**
 * The macro rewriter: per-statement desugaring of `local`, `while` and `if`,
 * the rewrite-until-nothing-changes loop, and hygienic inlining of calls to
 * user macros, each parameter bound through the caller's environment.
 */
module Expr {
  import opened Wrappers
  import opened PatternMatch
  import opened Sugar
  import Registry

  // ---------------------------------------------------------------------------
  // Patterns, as the source writes them

  /** `('user_macro', Star('name'), Star('params'), Cons('body', Star('statements')))`. */
  function UserMacroPattern(): Pattern
  {
    PSeq([PStr("user_macro"), Star("name"), Star("params"), Cons(PStr("body"), Star("statements"))])
  }

  /** `(LOCAL(Star('x')),)`: a one-statement list holding a `local`. */
  function LocalSitePattern(): Pattern
  {
    PSeq([PSeq([PStr("local"), LiteralPattern(Star("x"))])])
  }

  /** `((tag, ARGS(Star('x')), Cons('body', Star('statements'))),)` for `while` and `if`. */
  function BlockSitePattern(tag: string): Pattern
  {
    PSeq([PSeq([PStr(tag), PSeq([PStr("arguments"), LiteralPattern(Star("x"))]), Cons(PStr("body"), Star("statements"))])])
  }

  /** `(('call_macro', NAME(Star('macro_name')), Cons('arguments', Star('args'))),)`. */
  function CallSitePattern(): Pattern
  {
    PSeq([PSeq([PStr("call_macro"), PSeq([PStr("name"), LiteralPattern(Star("macro_name"))]), Cons(PStr("arguments"), Star("args"))])])
  }

  /** `Cons('parameters', Star('p'))`. */
  function ParamsPattern(): Pattern
  {
    Cons(PStr("parameters"), Star("p"))
  }

  // ---------------------------------------------------------------------------
  // What the patterns find, stated directly

  /** A `while`/`if` statement with exactly one literal condition argument: that argument and the body. */
  function BlockSite(tag: string, e: Value): Option<(Value, seq<Value>)>
  {
    match DecodeBlock(tag, e)
    case Some((c, b)) => if |c| == 1 then Some((c[0], b)) else None
    case None => None
  }

  /** A `call_macro` statement: the macro's name and the (still literal-wrapped) argument nodes. */
  function CallSite(e: Value): Option<(Value, seq<Value>)>
  {
    if e.Seq? && |e.items| == 3 && e.items[0] == Str("call_macro") && e.items[2].Seq? &&
       |e.items[2].items| >= 1 && e.items[2].items[0] == Str("arguments")
    then
      match DecodeWrapped("name", e.items[1])
      case Some(n) => Some((n, e.items[2].items[1..]))
      case None => None
    else None
  }

  /** The elements of a sequence value. */
  function Items(v: Value): seq<Value>
  {
    if v.Seq? then v.items else []
  }

  /**
   * A bound name's value, `m[n]`.  Python raises `KeyError` for a name that
   * is not bound; the default `Str("")` stands in for that case, which no
   * caller reaches: the rewrite actions look up only `x` and `statements`,
   * and `StepByMatcher` shows that on every match the action gives the direct
   * rewrite, so the values it reads are the bound ones.
   */
  function Get(m: Bindings, n: string): Value
  {
    if n in m then m[n] else Str("")
  }

  lemma {:induction false} UnliteralsLength(vs: seq<Value>)
    ensures Unliterals(vs).Some? ==> |Unliterals(vs).value| == |vs|
    decreases |vs|
  {
    if vs != [] {
      UnliteralsLength(vs[1..]);
    }
  }

  /** `match_user_macro_body` binds exactly the three parts `DecodeMacro` finds. */
  lemma {:induction false} MatchUserMacro(v: Value)
    ensures AttemptMatch(UserMacroPattern(), v) ==
      match DecodeMacro(v)
      case None => None
      case Some(parts) => Some(map["name" := parts.name, "params" := parts.params, "statements" := Seq(parts.statements)])
  {
    var body := Cons(PStr("body"), Star("statements"));
    MatchQuad(PStr("user_macro"), Star("name"), Star("params"), body, v);
    if v.Seq? && |v.items| == 4 {
      MatchConsTag("body", "statements", v.items[3]);
      if DecodeMacro(v).Some? {
        var bs := [] + [("name", v.items[1])] + [("params", v.items[2])] + [("statements", Seq(v.items[3].items[1..]))];
        assert Match(UserMacroPattern(), v) == Some(bs);
        assert bs == [("name", v.items[1]), ("params", v.items[2]), ("statements", Seq(v.items[3].items[1..]))];
        ToMapThree("name", v.items[1], "params", v.items[2], "statements", Seq(v.items[3].items[1..]));
      }
    }
  }

  /** The `local` rule's pattern finds exactly the statements `DecodeWrapped("local", _)` accepts. */
  lemma {:induction false} LocalSiteMatch(e: Value)
    ensures AttemptMatch(LocalSitePattern(), Seq([e])) ==
      match DecodeWrapped("local", e) case None => None case Some(x) => Some(map["x" := x])
  {
    var inner := PSeq([PStr("local"), LiteralPattern(Star("x"))]);
    MatchOneOf(inner, Seq([e]));
    MatchTagPair("local", LiteralPattern(Star("x")), e);
    if e.Seq? && |e.items| == 2 && e.items[0] == Str("local") {
      MatchTagPair("literal", Star("x"), e.items[1]);
      if Unliteral(e.items[1]).Some? {
        LeafPatterns("x", "", e.items[1].items[1]);
      }
    }
  }

  /** `('arguments', L(Star('x')))` matches exactly a one-condition argument list. */
  lemma {:induction false} MatchOneArgument(a: Value)
    ensures Match(PSeq([PStr("arguments"), LiteralPattern(Star("x"))]), a) ==
      match DecodeTagged("arguments", a)
      case Some(c) => if |c| == 1 then Some([("x", c[0])]) else None
      case None => None
  {
    MatchTagPair("arguments", LiteralPattern(Star("x")), a);
    if a.Seq? && |a.items| >= 1 && a.items[0] == Str("arguments") {
      UnliteralsLength(a.items[1..]);
      if |a.items| == 2 {
        var y := a.items[1];
        assert a.items[1..] == [y] && [y][1..] == [];
        assert Unliterals([y]) == if Unliteral(y).Some? then Some([Unliteral(y).value]) else None by {
          assert Unliterals([y][1..]) == Some([]);
          if Unliteral(y).Some? {
            assert [Unliteral(y).value] + [] == [Unliteral(y).value];
          }
        }
        MatchTagPair("literal", Star("x"), y);
      }
    }
  }

  /** The `while` and `if` rules' pattern finds exactly what `BlockSite` finds. */
  lemma {:induction false} BlockSiteMatch(tag: string, e: Value)
    ensures AttemptMatch(BlockSitePattern(tag), Seq([e])) ==
      match BlockSite(tag, e)
      case None => None
      case Some((x, b)) => Some(map["x" := x, "statements" := Seq(b)])
  {
    var args := PSeq([PStr("arguments"), LiteralPattern(Star("x"))]);
    var body := Cons(PStr("body"), Star("statements"));
    var inner := PSeq([PStr(tag), args, body]);
    MatchOneOf(inner, Seq([e]));
    assert Match(BlockSitePattern(tag), Seq([e])) == Match(inner, e);
    MatchTriple(PStr(tag), args, body, e);
    if e.Seq? && |e.items| == 3 {
      LeafPatterns("", tag, e.items[0]);
      assert Match(PStr(tag), e.items[0]).Some? <==> e.items[0] == Str(tag);
      MatchOneArgument(e.items[1]);
      MatchConsTag("body", "statements", e.items[2]);
      if BlockSite(tag, e).Some? {
        var (x, b) := BlockSite(tag, e).value;
        assert Match(PStr(tag), e.items[0]) == Some([]);
        var bs := [] + [("x", x)] + [("statements", Seq(b))];
        assert Match(inner, e) == Some(bs);
        assert bs == [("x", x), ("statements", Seq(b))];
        ToMapTwo("x", x, "statements", Seq(b));
      } else {
        assert Match(inner, e).None?;
      }
    }
  }

  /** The inliner's pattern finds exactly what `CallSite` finds. */
  lemma {:induction false} CallSiteMatch(e: Value)
    ensures AttemptMatch(CallSitePattern(), Seq([e])) ==
      match CallSite(e)
      case None => None
      case Some((n, args)) => Some(map["macro_name" := n, "args" := Seq(args)])
  {
    var name := PSeq([PStr("name"), LiteralPattern(Star("macro_name"))]);
    var args := Cons(PStr("arguments"), Star("args"));
    var inner := PSeq([PStr("call_macro"), name, args]);
    MatchOneOf(inner, Seq([e]));
    MatchTriple(PStr("call_macro"), name, args, e);
    if e.Seq? && |e.items| == 3 {
      MatchTagPair("name", LiteralPattern(Star("macro_name")), e.items[1]);
      MatchConsTag("arguments", "args", e.items[2]);
      var w := e.items[1];
      if w.Seq? && |w.items| == 2 && w.items[0] == Str("name") {
        MatchTagPair("literal", Star("macro_name"), w.items[1]);
      }
      if CallSite(e).Some? {
        var n := w.items[1].items[1];
        var bs := [] + [("macro_name", n)] + [("args", Seq(e.items[2].items[1..]))];
        assert Match(CallSitePattern(), Seq([e])) == Some(bs);
        assert bs == [("macro_name", n), ("args", Seq(e.items[2].items[1..]))];
        ToMapTwo("macro_name", n, "args", Seq(e.items[2].items[1..]));
      }
    }
  }

  // ---------------------------------------------------------------------------
  // The three desugaring rules, one statement at a time

  datatype Rule = AllocateLocals | ExpandIfBlock | ExpandWhileBlock

  /** The key each rule is registered under in `transforms`. */
  function RuleName(r: Rule): string
  {
    match r
    case AllocateLocals => "allocate_locals"
    case ExpandIfBlock => "expand_if_block"
    case ExpandWhileBlock => "expand_while_block"
  }

  /** Python's ordering of strings: the first differing character decides, and a proper prefix comes first. */
  predicate StringLess(a: string, b: string)
  {
    if a == [] then b != []
    else if b == [] then false
    else if a[0] != b[0] then a[0] < b[0]
    else StringLess(a[1..], b[1..])
  }

  /** `sorted(transforms)`. */
  const RuleOrder: seq<Rule> := [AllocateLocals, ExpandIfBlock, ExpandWhileBlock]

  /** The rules are applied in sorted order of their names. */
  lemma {:induction false} RuleOrderSorted()
    ensures StringLess(RuleName(RuleOrder[0]), RuleName(RuleOrder[1]))
    ensures StringLess(RuleName(RuleOrder[1]), RuleName(RuleOrder[2]))
  {
    StringLessAt(RuleName(AllocateLocals), RuleName(ExpandIfBlock), 0);
    assert RuleName(ExpandIfBlock)[..7] == RuleName(ExpandWhileBlock)[..7];
    StringLessAt(RuleName(ExpandIfBlock), RuleName(ExpandWhileBlock), 7);
  }

  /** Two strings that agree before index `k` and differ there are ordered by their characters at `k`. */
  lemma {:induction false} StringLessAt(a: string, b: string, k: nat)
    requires k < |a| && k < |b| && a[..k] == b[..k] && a[k] < b[k]
    ensures StringLess(a, b)
    decreases k
  {
    if k > 0 {
      assert a[0] == a[..k][0] && b[0] == b[..k][0];
      assert a[1..][..k - 1] == a[..k][1..] && b[1..][..k - 1] == b[..k][1..];
      StringLessAt(a[1..], b[1..], k - 1);
    }
  }

  function EnvBegin(): Value { Seq([Str("env_begin")]) }

  function EnvEnd(): Value { Seq([Str("env_end")]) }

  /** What `local(x)` becomes: declare `x`, bind it to a fresh cell, free that cell when the scope ends. */
  function LocalExpansion(x: Value): seq<Value>
  {
    [Seq([Str("env_declare"), L(x)]),
     Seq([Str("env_set"), L(x), Seq([Str("allocate_local")])]),
     Seq([Str("free_local_on_env_exit"), Seq([Str("env_get"), L(x)])])]
  }

  /** `rewrite_while_block`: a scope around `begin_loop(x)`, the body, `end_loop(x)`. */
  function WhileExpansion(x: Value, body: seq<Value>): seq<Value>
  {
    [EnvBegin(), Wrapper(Registry.BeginLoop, [x])] + body + [Wrapper(Registry.EndLoop, [x]), EnvEnd()]
  }

  /** The hidden temporary of an `if`. */
  function IfTemp(): Value { Hidden(Str("if_tmp")) }

  /**
   * `rewrite_if_block`: in a fresh scope, copy the condition into a hidden
   * local, run the body in a loop on that copy, and clear it so the loop runs once.
   */
  function IfExpansion(x: Value, body: seq<Value>): seq<Value>
  {
    [EnvBegin(), Local(IfTemp()), Wrapper(Registry.Copy, [x, IfTemp()]), Wrapper(Registry.BeginLoop, [IfTemp()])] +
    body + [Wrapper(Registry.Clear, [IfTemp()]), Wrapper(Registry.EndLoop, [IfTemp()]), EnvEnd()]
  }

  /** The statement has the top-level construct the rule rewrites. */
  predicate Occurs(r: Rule, e: Value)
  {
    match r
    case AllocateLocals => DecodeWrapped("local", e).Some?
    case ExpandIfBlock => BlockSite("if", e).Some?
    case ExpandWhileBlock => BlockSite("while", e).Some?
  }

  /** `list(f([expr]))` for one rule: the statements one statement is replaced by. */
  function Step(r: Rule, e: Value): seq<Value>
  {
    match r
    case AllocateLocals =>
      (match DecodeWrapped("local", e) case Some(x) => LocalExpansion(x) case None => [e])
    case ExpandIfBlock =>
      (match BlockSite("if", e) case Some((x, b)) => IfExpansion(x, b) case None => [e])
    case ExpandWhileBlock =>
      (match BlockSite("while", e) case Some((x, b)) => WhileExpansion(x, b) case None => [e])
  }

  /** The rule's pattern, as `pm.match` receives it. */
  function SitePattern(r: Rule): Pattern
  {
    match r
    case AllocateLocals => LocalSitePattern()
    case ExpandIfBlock => BlockSitePattern("if")
    case ExpandWhileBlock => BlockSitePattern("while")
  }

  /** The rule's action on the bindings of a match. */
  function SiteAction(r: Rule): Bindings -> Value
  {
    match r
    case AllocateLocals => (m: Bindings) => Seq(LocalExpansion(Get(m, "x")))
    case ExpandIfBlock => (m: Bindings) => Seq(IfExpansion(Get(m, "x"), Items(Get(m, "statements"))))
    case ExpandWhileBlock => (m: Bindings) => Seq(WhileExpansion(Get(m, "x"), Items(Get(m, "statements"))))
  }

  /** The source's replace rule on `[expr]` yields exactly the statements `Step` gives. */
  lemma {:induction false} StepByMatcher(r: Rule, e: Value)
    ensures Replace(SitePattern(r), SiteAction(r), Seq([e])) == Seq(Step(r, e))
  {
    match r
    case AllocateLocals => LocalSiteMatch(e);
    case ExpandIfBlock => BlockSiteMatch("if", e);
    case ExpandWhileBlock => BlockSiteMatch("while", e);
  }

  /** A rule leaves a statement alone exactly when its construct does not occur there, and otherwise grows it. */
  lemma {:induction false} StepShape(r: Rule, e: Value)
    ensures !Occurs(r, e) <==> Step(r, e) == [e]
    ensures Occurs(r, e) ==> |Step(r, e)| >= 3
  {
  }

  /** No statement a rule produces from its own construct is that construct again at the top level. */
  lemma {:induction false} ExpansionSettles(x: Value)
    ensures forall i :: 0 <= i < |LocalExpansion(x)| ==> !Occurs(AllocateLocals, LocalExpansion(x)[i])
  {
  }

  // ---------------------------------------------------------------------------
  // A rule on a whole macro

  /** Each statement of a list replaced, in order, by what `f` makes of it. */
  function FlatMap(f: Value -> seq<Value>, stmts: seq<Value>): seq<Value>
    decreases |stmts|
  {
    if stmts == [] then [] else FlatMap(f, stmts[..|stmts| - 1]) + f(stmts[|stmts| - 1])
  }

  function StepOf(r: Rule): Value -> seq<Value>
  {
    (e: Value) => Step(r, e)
  }

  /** The loop of each rule, `statements_prime += list(f([expr]))`, over a list of statements. */
  function Expand(r: Rule, stmts: seq<Value>): seq<Value>
  {
    FlatMap(StepOf(r), stmts)
  }

  /** The expansion of a non-empty list: that of all but its last statement, then that of the last. */
  lemma {:induction false} ExpandSnoc(r: Rule, stmts: seq<Value>)
    requires stmts != []
    ensures Expand(r, stmts) == Expand(r, stmts[..|stmts| - 1]) + Step(r, stmts[|stmts| - 1])
  {
    assert StepOf(r)(stmts[|stmts| - 1]) == Step(r, stmts[|stmts| - 1]);
  }

  /** A rule through `match_user_macro_body`: anything that is not a user macro passes unchanged. */
  function ApplyRule(r: Rule, macro: Value): Value
  {
    match DecodeMacro(macro)
    case None => macro
    case Some(p) => Rebuild(MacroParts(p.name, p.params, Expand(r, p.statements)))
  }

  /** No statement has the rule's construct at the top level. */
  ghost predicate Settled(r: Rule, stmts: seq<Value>)
  {
    forall i :: 0 <= i < |stmts| ==> !Occurs(r, stmts[i])
  }

  lemma {:induction false} SettledSnoc(r: Rule, init: seq<Value>, last: Value)
    ensures Settled(r, init + [last]) <==> Settled(r, init) && !Occurs(r, last)
  {
    var s := init + [last];
    assert s[|init|] == last;
    assert forall i :: 0 <= i < |init| ==> s[i] == init[i];
  }

  lemma {:induction false} SettledAppend(r: Rule, a: seq<Value>, b: seq<Value>)
    ensures Settled(r, a + b) <==> Settled(r, a) && Settled(r, b)
  {
    var s := a + b;
    assert forall i :: 0 <= i < |a| ==> s[i] == a[i];
    assert forall i :: 0 <= i < |b| ==> s[|a| + i] == b[i];
  }

  /** The rules treat statements independently and keep their order. */
  lemma {:induction false} ExpandAppend(r: Rule, a: seq<Value>, b: seq<Value>)
    ensures Expand(r, a + b) == Expand(r, a) + Expand(r, b)
  {
    FlatMapAppend(StepOf(r), a, b);
  }

  lemma {:induction false} FlatMapAppend(f: Value -> seq<Value>, a: seq<Value>, b: seq<Value>)
    ensures FlatMap(f, a + b) == FlatMap(f, a) + FlatMap(f, b)
    decreases |b|
  {
    if b == [] {
      assert a + b == a;
      assert FlatMap(f, a) + [] == FlatMap(f, a);
    } else {
      var b0, last := b[..|b| - 1], b[|b| - 1];
      var ab := a + b;
      assert ab[..|ab| - 1] == a + b0 && ab[|ab| - 1] == last;
      FlatMapAppend(f, a, b0);
      ValuesAssoc(FlatMap(f, a), FlatMap(f, b0), f(last));
    }
  }

  lemma {:induction false} ValuesAssoc(x: seq<Value>, y: seq<Value>, z: seq<Value>)
    ensures x + y + z == x + (y + z)
  {
  }

  /**
   * A rule is the identity exactly on the statement lists in which its
   * construct does not occur at the top level, and otherwise strictly grows the list.
   */
  lemma {:induction false} ExpandIdentity(r: Rule, stmts: seq<Value>)
    ensures Settled(r, stmts) <==> Expand(r, stmts) == stmts
    ensures !Settled(r, stmts) ==> |Expand(r, stmts)| > |stmts|
    ensures |Expand(r, stmts)| >= |stmts|
    decreases |stmts|
  {
    if stmts != [] {
      var init, last := stmts[..|stmts| - 1], stmts[|stmts| - 1];
      ExpandIdentity(r, init);
      ExpandSnoc(r, stmts);
      StepShape(r, last);
      assert stmts == init + [last];
      SettledSnoc(r, init, last);
    }
  }

  /** After one pass of the `local` rule, no top-level `local` remains. */
  lemma {:induction false} LocalsGone(stmts: seq<Value>)
    ensures Settled(AllocateLocals, Expand(AllocateLocals, stmts))
    decreases |stmts|
  {
    if stmts != [] {
      var init, last := stmts[..|stmts| - 1], stmts[|stmts| - 1];
      LocalsGone(init);
      ExpandSnoc(AllocateLocals, stmts);
      assert Settled(AllocateLocals, Step(AllocateLocals, last)) by {
        match DecodeWrapped("local", last)
        case Some(x) => ExpansionSettles(x);
        case None =>
      }
      SettledAppend(AllocateLocals, Expand(AllocateLocals, init), Step(AllocateLocals, last));
    }
  }

  /** A rule keeps the macro's name and parameters and rewrites only its statements. */
  lemma {:induction false} ApplyRuleParts(r: Rule, macro: Value)
    ensures DecodeMacro(macro).None? ==> ApplyRule(r, macro) == macro
    ensures DecodeMacro(macro).Some? ==>
      DecodeMacro(ApplyRule(r, macro)) == Some(MacroParts(DecodeMacro(macro).value.name, DecodeMacro(macro).value.params,
                                                          Expand(r, DecodeMacro(macro).value.statements)))
  {
    if DecodeMacro(macro).Some? {
      var p := DecodeMacro(macro).value;
      RebuildRoundTrip(MacroParts(p.name, p.params, Expand(r, p.statements)));
    }
  }

  /** A rule leaves a macro unchanged exactly when its construct does not occur among the top-level statements. */
  lemma {:induction false} ApplyRuleIdentity(r: Rule, macro: Value)
    ensures ApplyRule(r, macro) == macro <==>
      DecodeMacro(macro).None? || Settled(r, DecodeMacro(macro).value.statements)
  {
    ApplyRuleParts(r, macro);
    if DecodeMacro(macro).Some? {
      var p := DecodeMacro(macro).value;
      ExpandIdentity(r, p.statements);
      MacroRoundTrip(Str(""), [], [], macro);
    }
  }

  /** The statement loop of a rule: each statement through the pattern matcher, results concatenated. */
  method ExpandStatements(r: Rule, stmts: seq<Value>) returns (acc: seq<Value>)
    ensures acc == Expand(r, stmts)
  {
    acc := [];
    for i := 0 to |stmts|
      invariant acc == Expand(r, stmts[..i])
    {
      var out := ExpandOne(r, stmts[i]);
      ExpandPrefix(r, stmts, i);
      acc := acc + out;
    }
    assert stmts[..|stmts|] == stmts;
  }

  /** One statement through the rule's matcher: what the rule makes of it. */
  method ExpandOne(r: Rule, e: Value) returns (out: seq<Value>)
    ensures out == Step(r, e)
  {
    var f := Replace(SitePattern(r), SiteAction(r), Seq([e]));
    StepByMatcher(r, e);
    out := Items(f);
  }

  /** The expansion of one more statement. */
  lemma {:induction false} ExpandPrefix(r: Rule, stmts: seq<Value>, i: nat)
    requires i < |stmts|
    ensures Expand(r, stmts[..i + 1]) == Expand(r, stmts[..i]) + Step(r, stmts[i])
  {
    assert stmts[..i + 1][..i] == stmts[..i];
    ExpandSnoc(r, stmts[..i + 1]);
  }

  /** One rule applied to a macro: the user-macro match, then the statement loop. */
  method RunRule(r: Rule, macro: Value) returns (out: Value)
    ensures out == ApplyRule(r, macro)
  {
    var m := AttemptMatch(UserMacroPattern(), macro);
    MatchUserMacro(macro);
    if m.None? {
      return macro;
    }
    var acc := ExpandStatements(r, Items(m.value["statements"]));
    out := Rebuild(MacroParts(m.value["name"], m.value["params"], acc));
  }

  // ---------------------------------------------------------------------------
  // Rewriting until nothing changes

  /** `wrap_body_in_env_rule`: the statements in one scope of their own. */
  function WrapBody(macro: Value): Value
  {
    match DecodeMacro(macro)
    case None => macro
    case Some(p) => Rebuild(MacroParts(p.name, p.params, [EnvBegin()] + p.statements + [EnvEnd()]))
  }

  /** The rules applied one after the other, with whether any of them changed the macro. */
  function RoundFrom(rules: seq<Rule>, macro: Value): (Value, bool)
    decreases |rules|
  {
    if rules == [] then (macro, false)
    else
      var (m, changed) := RoundFrom(rules[..|rules| - 1], macro);
      var out := ApplyRule(rules[|rules| - 1], m);
      (out, changed || out != m)
  }

  /**
   * `rewrite_macro_until_fixed_point`: full rounds of the rules in sorted
   * order until a round changes nothing, then the body wrapped in a scope.
   * The source has no bound on the number of rounds; `fuel` is the model's.
   */
  function FixedPoint(macro: Value, fuel: nat): Result<Value>
    decreases fuel
  {
    if fuel == 0 then Err(FuelExhausted)
    else
      var (out, changed) := RoundFrom(RuleOrder, macro);
      if changed then FixedPoint(out, fuel - 1) else Ok(WrapBody(out))
  }

  /** A round that reports no change changed nothing: every rule in it left the macro alone. */
  lemma {:induction false} RoundUnchanged(rules: seq<Rule>, macro: Value)
    ensures !RoundFrom(rules, macro).1 ==>
      RoundFrom(rules, macro).0 == macro && forall i :: 0 <= i < |rules| ==> ApplyRule(rules[i], macro) == macro
    decreases |rules|
  {
    if rules != [] {
      RoundUnchanged(rules[..|rules| - 1], macro);
      if !RoundFrom(rules, macro).1 {
        forall i | 0 <= i < |rules| ensures ApplyRule(rules[i], macro) == macro {
          if i < |rules| - 1 { assert rules[i] == rules[..|rules| - 1][i]; }
        }
      }
    }
  }

  /** A round keeps whether the value is a macro, and the macro's name and parameters. */
  lemma {:induction false} RoundShape(rules: seq<Rule>, macro: Value)
    ensures DecodeMacro(macro).None? ==> RoundFrom(rules, macro) == (macro, false)
    ensures DecodeMacro(macro).Some? ==> SameHead(RoundFrom(rules, macro).0, macro)
    decreases |rules|
  {
    if rules != [] {
      RoundShape(rules[..|rules| - 1], macro);
      ApplyRuleParts(rules[|rules| - 1], RoundFrom(rules[..|rules| - 1], macro).0);
    }
  }

  /** Both are user macros with the same name and parameter nodes. */
  ghost function SameHead(a: Value, b: Value): bool
  {
    DecodeMacro(a).Some? && DecodeMacro(b).Some? &&
    DecodeMacro(a).value.name == DecodeMacro(b).value.name && DecodeMacro(a).value.params == DecodeMacro(b).value.params
  }

  /** Every statement list in which none of the three constructs occurs at the top level. */
  ghost predicate Desugared(stmts: seq<Value>)
  {
    Settled(AllocateLocals, stmts) && Settled(ExpandIfBlock, stmts) && Settled(ExpandWhileBlock, stmts)
  }

  /**
   * What the fixed point promises about its result `out` for the input
   * `macro`: a non-macro comes back as it was; a macro keeps its name and
   * parameters, and its statements are `env_begin`, then statements with no
   * top-level `local`, `while` or `if`, then `env_end`.
   */
  ghost function Finished(out: Value, macro: Value): bool
  {
    if DecodeMacro(macro).None? then out == macro
    else
      SameHead(out, macro) &&
      var s := DecodeMacro(out).value.statements;
      |s| >= 2 && s[0] == EnvBegin() && s[|s| - 1] == EnvEnd() && Desugared(s[1..|s| - 1])
  }

  /** A macro none of the rules changes, wrapped, is finished. */
  lemma {:induction false} WrapFinished(macro: Value)
    requires ApplyRule(AllocateLocals, macro) == macro
    requires ApplyRule(ExpandIfBlock, macro) == macro
    requires ApplyRule(ExpandWhileBlock, macro) == macro
    ensures Finished(WrapBody(macro), macro)
  {
    if DecodeMacro(macro).Some? {
      var p := DecodeMacro(macro).value;
      ApplyRuleIdentity(AllocateLocals, macro);
      ApplyRuleIdentity(ExpandIfBlock, macro);
      ApplyRuleIdentity(ExpandWhileBlock, macro);
      var s := [EnvBegin()] + p.statements + [EnvEnd()];
      RebuildRoundTrip(MacroParts(p.name, p.params, s));
      assert s[1..|s| - 1] == p.statements;
    }
  }

  /** Finished depends on the input only through its name and parameters. */
  lemma {:induction false} FinishedTransfer(out: Value, mid: Value, macro: Value)
    requires SameHead(mid, macro)
    requires Finished(out, mid)
    ensures Finished(out, macro)
  {
  }

  /** A round that changes the macro hands the rest of the work, with `rest` fuel, to the next round. */
  lemma {:induction false} FixedPointStep(macro: Value, fuel: nat, rest: nat, out: Value)
    requires fuel > 0 && rest == fuel - 1 && RoundFrom(RuleOrder, macro) == (out, true)
    ensures FixedPoint(macro, fuel) == FixedPoint(out, rest)
  {
  }

  /** A round that changes nothing ends the loop with a finished macro. */
  lemma {:induction false} FixedPointDone(macro: Value, fuel: nat)
    requires fuel > 0 && !RoundFrom(RuleOrder, macro).1
    ensures FixedPoint(macro, fuel) == Ok(WrapBody(macro))
    ensures Finished(WrapBody(macro), macro)
  {
    RoundUnchanged(RuleOrder, macro);
    assert ApplyRule(RuleOrder[0], macro) == macro && ApplyRule(RuleOrder[1], macro) == macro &&
           ApplyRule(RuleOrder[2], macro) == macro;
    WrapFinished(macro);
  }

  /** What the later rounds promise about their input carries over to one changing round before them. */
  lemma {:induction false} FixedPointChanged(macro: Value, fuel: nat, rest: nat, out: Value)
    requires fuel > 0 && rest == fuel - 1 && RoundFrom(RuleOrder, macro) == (out, true)
    requires FixedPoint(out, rest).Err? ==> FixedPoint(out, rest).error == FuelExhausted
    requires FixedPoint(out, rest).Ok? ==> Finished(FixedPoint(out, rest).value, out)
    ensures FixedPoint(macro, fuel).Err? ==> FixedPoint(macro, fuel).error == FuelExhausted
    ensures FixedPoint(macro, fuel).Ok? ==> Finished(FixedPoint(macro, fuel).value, macro)
  {
    RoundShape(RuleOrder, macro);
    FixedPointStep(macro, fuel, rest, out);
    if FixedPoint(out, rest).Ok? && DecodeMacro(macro).Some? {
      FinishedTransfer(FixedPoint(out, rest).value, out, macro);
    }
  }

  /** The fixed point fails only for want of fuel, and what it returns is finished. */
  lemma {:induction false} FixedPointSpec(macro: Value, fuel: nat)
    ensures FixedPoint(macro, fuel).Err? ==> FixedPoint(macro, fuel).error == FuelExhausted
    ensures FixedPoint(macro, fuel).Ok? ==> Finished(FixedPoint(macro, fuel).value, macro)
    decreases fuel
  {
    if fuel > 0 {
      var rest := fuel - 1;
      var round := RoundFrom(RuleOrder, macro);
      if round.1 {
        FixedPointSpec(round.0, rest);
        FixedPointChanged(macro, fuel, rest, round.0);
      } else {
        FixedPointDone(macro, fuel);
      }
    }
  }

  /** One round of the rules, with the source's inner loop. */
  method RunRound(macro: Value) returns (m: Value, changed: bool)
    ensures (m, changed) == RoundFrom(RuleOrder, macro)
  {
    m := macro;
    changed := false;
    for i := 0 to |RuleOrder|
      invariant (m, changed) == RoundFrom(RuleOrder[..i], macro)
    {
      assert RuleOrder[..i + 1][..i] == RuleOrder[..i];
      var out := RunRule(RuleOrder[i], m);
      if out != m {
        changed := true;
      }
      m := out;
    }
    assert RuleOrder[..|RuleOrder|] == RuleOrder;
  }

  /** `rewrite_macro_until_fixed_point`, with the source's outer loop. */
  method RewriteUntilFixedPoint(macro: Value, fuel: nat) returns (r: Result<Value>)
    ensures r == FixedPoint(macro, fuel)
  {
    var m := macro;
    var changed := true;
    var rounds: nat := 0;
    while changed
      invariant rounds <= fuel
      invariant changed ==> FixedPoint(m, fuel - rounds) == FixedPoint(macro, fuel)
      invariant !changed ==> FixedPoint(macro, fuel) == Ok(WrapBody(m))
      decreases fuel - rounds
    {
      if rounds == fuel {
        return Err(FuelExhausted);
      }
      m, changed := RunRound(m);
      rounds := rounds + 1;
    }
    r := Ok(WrapBody(m));
  }

  // ---------------------------------------------------------------------------
  // Expanding one macro call

  /** The parameter names of a parameter node `('parameters', *names)`, still literal-wrapped. */
  function ParamList(params: Value): Option<seq<Value>>
  {
    if params.Seq? && |params.items| >= 1 && params.items[0] == Str("parameters") then Some(params.items[1..]) else None
  }

  /** `Cons('parameters', Star('p'))` finds exactly what `ParamList` finds. */
  lemma {:induction false} ParamsMatch(params: Value)
    ensures AttemptMatch(ParamsPattern(), params) ==
      match ParamList(params) case None => None case Some(ns) => Some(map["p" := Seq(ns)])
  {
    MatchConsTag("parameters", "p", params);
    if ParamList(params).Some? {
      var bs := [("p", Seq(params.items[1..]))];
      assert ToMap(bs) == ToMapFrom(bs[1..], map["p" := Seq(params.items[1..])]);
      assert bs[1..] == [];
    }
  }

  /** `get_macro_param_names`; the source's assertion failure is `Malformed`. */
  function ParamNames(macro: Value): Result<seq<Value>>
  {
    match DecodeMacro(macro)
    case None => Err(Malformed)
    case Some(p) =>
      match ParamList(p.params)
      case None => Err(Malformed)
      case Some(ns) => Ok(ns)
  }

  /** The parameter names of a macro written with `USER_MACRO` are its parameters, literal-wrapped, in order. */
  lemma {:induction false} ParamNamesOfMacro(name: Value, params: seq<Value>, body: seq<Value>)
    ensures ParamNames(Macro(name, params, body)) == Ok(Literals(params))
  {
    MacroRoundTrip(name, params, body, Str(""));
    assert ([Str("parameters")] + Literals(params))[1..] == Literals(params);
  }

  /** The two statements that bind parameter `x` to the argument expression `e` in the caller's scope. */
  function Bind(x: Value, e: Value): seq<Value>
  {
    [Seq([Str("env_declare"), x]), Seq([Str("env_set"), x, Seq([Str("outer_env_get"), e])])]
  }

  /** The header loop of `expand_macro_call`; a name with no substitution is `UnboundName`. */
  function Header(names: seq<Value>, subs: map<Value, Value>): Result<seq<Value>>
    decreases |names|
  {
    if names == [] then Ok([])
    else
      var h :- Header(names[..|names| - 1], subs);
      var x := names[|names| - 1];
      if x !in subs then Err(UnboundName) else Ok(h + Bind(x, subs[x]))
  }

  /**
   * The header succeeds exactly when every name has a substitution, fails
   * only with `UnboundName`, and binds the names in order, two statements each.
   */
  lemma {:induction false} HeaderSpec(names: seq<Value>, subs: map<Value, Value>)
    ensures Header(names, subs).Ok? <==> forall i :: 0 <= i < |names| ==> names[i] in subs
    ensures Header(names, subs).Err? ==> Header(names, subs).error == UnboundName
    ensures Header(names, subs).Ok? ==>
      var h := Header(names, subs).value;
      |h| == 2 * |names| && forall i :: 0 <= i < |names| ==> h[2 * i..2 * i + 2] == Bind(names[i], subs[names[i]])
  {
    HeaderDefined(names, subs);
    if Header(names, subs).Ok? {
      HeaderContents(names, subs);
    }
  }

  /** When the header is built: exactly when every name has a substitution. */
  lemma {:induction false} HeaderDefined(names: seq<Value>, subs: map<Value, Value>)
    ensures Header(names, subs).Ok? <==> forall i :: 0 <= i < |names| ==> names[i] in subs
    ensures Header(names, subs).Err? ==> Header(names, subs).error == UnboundName
    decreases |names|
  {
    if names != [] {
      var init, x := names[..|names| - 1], names[|names| - 1];
      HeaderDefined(init, subs);
      assert forall i :: 0 <= i < |init| ==> init[i] == names[i];
    }
  }

  /** What a built header holds: two statements per name, in order. */
  lemma {:induction false} HeaderContents(names: seq<Value>, subs: map<Value, Value>)
    requires forall i :: 0 <= i < |names| ==> names[i] in subs
    requires Header(names, subs).Ok?
    ensures |Header(names, subs).value| == 2 * |names|
    ensures forall i :: 0 <= i < |names| ==> Header(names, subs).value[2 * i..2 * i + 2] == Bind(names[i], subs[names[i]])
    decreases |names|
  {
    if names != [] {
      var init, x := names[..|names| - 1], names[|names| - 1];
      assert forall i :: 0 <= i < |init| ==> init[i] == names[i];
      assert Header(init, subs).Ok?;
      HeaderContents(init, subs);
      var h0 := Header(init, subs).value;
      var h := h0 + Bind(x, subs[x]);
      assert Header(names, subs).value == h;
      forall i | 0 <= i < |names| ensures h[2 * i..2 * i + 2] == Bind(names[i], subs[names[i]]) {
        if i < |init| {
          assert names[i] == init[i];
          assert h[2 * i..2 * i + 2] == h0[2 * i..2 * i + 2];
        } else {
          assert h[2 * i..2 * i + 2] == Bind(x, subs[x]);
        }
      }
    }
  }

  /**
   * `expand_macro_call`: the macro with its parameters emptied and its
   * statements inside a scope whose header binds each parameter to its
   * substitution.  A non-macro passes unchanged; a parameter node that is
   * not `('parameters', ...)` is `Malformed`; a substitution count
   * different from the parameter count is the source's `ArityMismatch`.
   */
  function ExpandCall(macro: Value, subs: map<Value, Value>): Result<Value>
  {
    match DecodeMacro(macro)
    case None => Ok(macro)
    case Some(p) =>
      match ParamList(p.params)
      case None => Err(Malformed)
      case Some(names) =>
        if |names| != |subs| then Err(ArityMismatch)
        else
          var h :- Header(names, subs);
          Ok(Rebuild(MacroParts(p.name, Seq([]), [EnvBegin()] + h + p.statements + [EnvEnd()])))
  }

  /** `expand_macro_call`, with the source's header loop. */
  method ExpandMacroCall(macro: Value, subs: map<Value, Value>) returns (r: Result<Value>)
    ensures r == ExpandCall(macro, subs)
  {
    var m := AttemptMatch(UserMacroPattern(), macro);
    MatchUserMacro(macro);
    if m.None? {
      return Ok(macro);
    }
    var params := AttemptMatch(ParamsPattern(), m.value["params"]);
    ParamsMatch(m.value["params"]);
    if params.None? {
      return Err(Malformed);
    }
    var names := Items(params.value["p"]);
    if |names| != |subs| {
      return Err(ArityMismatch);
    }
    var header := BuildHeader(names, subs);
    if header.Err? {
      return Err(header.error);
    }
    r := Ok(Rebuild(MacroParts(m.value["name"], Seq([]), [EnvBegin()] + header.value + Items(m.value["statements"]) + [EnvEnd()])));
  }

  /** The header loop of `expand_macro_call`: one declaration and one assignment per parameter. */
  method BuildHeader(names: seq<Value>, subs: map<Value, Value>) returns (r: Result<seq<Value>>)
    ensures r == Header(names, subs)
  {
    var header := [];
    for i := 0 to |names|
      invariant Header(names[..i], subs) == Ok(header)
    {
      assert names[..i + 1][..i] == names[..i];
      var x := names[i];
      if x !in subs {
        HeaderFailsOn(names, subs, i + 1);
        return Err(UnboundName);
      }
      header := header + Bind(x, subs[x]);
    }
    assert names[..|names|] == names;
    r := Ok(header);
  }

  /** Once a prefix of the names fails, so do all the names. */
  lemma {:induction false} HeaderFailsOn(names: seq<Value>, subs: map<Value, Value>, n: nat)
    requires n <= |names| && Header(names[..n], subs) == Err(UnboundName)
    ensures Header(names, subs) == Err(UnboundName)
    decreases |names| - n
  {
    if n < |names| {
      assert names[..n + 1][..n] == names[..n];
      HeaderFailsOn(names, subs, n + 1);
    } else {
      assert names[..n] == names;
    }
  }

  // ---------------------------------------------------------------------------
  // Inlining

  /** No two elements are equal. */
  predicate Distinct(xs: seq<Value>)
  {
    forall i, j :: 0 <= i < j < |xs| ==> xs[i] != xs[j]
  }

  /** `dict(zip(ks, vs))`: where a key repeats, the later value wins. */
  function ZipMap(ks: seq<Value>, vs: seq<Value>): map<Value, Value>
    requires |ks| == |vs|
    decreases |ks|
  {
    if ks == [] then map[] else ZipMap(ks[..|ks| - 1], vs[..|vs| - 1])[ks[|ks| - 1] := vs[|vs| - 1]]
  }

  /** The zipped dictionary has exactly the keys of `ks`. */
  lemma {:induction false} ZipKeys(ks: seq<Value>, vs: seq<Value>)
    requires |ks| == |vs|
    ensures forall k :: k in ZipMap(ks, vs) <==> k in ks
    decreases |ks|
  {
    if ks != [] {
      ZipKeys(ks[..|ks| - 1], vs[..|vs| - 1]);
      assert ks == ks[..|ks| - 1] + [ks[|ks| - 1]];
    }
  }

  /** It has as many entries as `ks` has elements exactly when they are distinct, and never more. */
  lemma {:induction false} ZipSize(ks: seq<Value>, vs: seq<Value>)
    requires |ks| == |vs|
    ensures |ZipMap(ks, vs)| <= |ks|
    ensures |ZipMap(ks, vs)| == |ks| <==> Distinct(ks)
    decreases |ks|
  {
    if ks != [] {
      var ki, vi, k, v := ks[..|ks| - 1], vs[..|vs| - 1], ks[|ks| - 1], vs[|vs| - 1];
      ZipSize(ki, vi);
      ZipKeys(ki, vi);
      DistinctSnoc(ks);
      var z := ZipMap(ki, vi);
      assert ZipMap(ks, vs) == z[k := v];
      if k in ki {
        assert k in z;
        assert |z[k := v]| == |z|;
      } else {
        assert k !in z;
        assert |z[k := v]| == |z| + 1;
      }
    }
  }

  /** A non-empty sequence repeats nothing exactly when its prefix does not and lacks the last element. */
  lemma {:induction false} DistinctSnoc(s: seq<Value>)
    requires s != []
    ensures Distinct(s) <==> Distinct(s[..|s| - 1]) && s[|s| - 1] !in s[..|s| - 1]
  {
    var init, last := s[..|s| - 1], s[|s| - 1];
    if Distinct(init) && last !in init {
      forall i, j | 0 <= i < j < |s| ensures s[i] != s[j] {
        if j == |s| - 1 { assert s[i] == init[i]; } else { assert s[i] == init[i] && s[j] == init[j]; }
      }
    }
    if !Distinct(init) {
      var i, j :| 0 <= i < j < |init| && init[i] == init[j];
      assert s[i] == s[j];
    }
    if last in init {
      var i :| 0 <= i < |init| && init[i] == last;
      assert s[i] == s[|s| - 1];
    }
  }

  /** With distinct keys, each key maps to the value at its own position. */
  lemma {:induction false} ZipValues(ks: seq<Value>, vs: seq<Value>)
    requires |ks| == |vs| && Distinct(ks)
    ensures forall i :: 0 <= i < |ks| ==> ks[i] in ZipMap(ks, vs) && ZipMap(ks, vs)[ks[i]] == vs[i]
    decreases |ks|
  {
    if ks != [] {
      var ki, vi, k, v := ks[..|ks| - 1], vs[..|vs| - 1], ks[|ks| - 1], vs[|vs| - 1];
      DistinctSnoc(ks);
      ZipValues(ki, vi);
      var z := ZipMap(ki, vi);
      assert ZipMap(ks, vs) == z[k := v];
      forall i | 0 <= i < |ks| ensures ks[i] in z[k := v] && z[k := v][ks[i]] == vs[i] {
        if i < |ki| {
          assert ks[i] == ki[i] && vs[i] == vi[i];
          assert ki[i] != k;
        }
      }
    }
  }

  /**
   * `inline_macro`: the statements of the named macro expanded with its
   * parameters bound to the arguments.  An unknown name is `UnknownMacro`;
   * an argument count different from the parameter count is `ArityMismatch`.
   */
  function InlineMacro(defs: map<string, Value>, n: Value, args: seq<Value>): Result<seq<Value>>
  {
    if !n.Str? || n.s !in defs then Err(UnknownMacro)
    else
      var params :- ParamNames(defs[n.s]);
      if |args| != |params| then Err(ArityMismatch)
      else
        var expanded :- ExpandCall(defs[n.s], ZipMap(params, args));
        match DecodeMacro(expanded)
        case Some(p) => Ok(p.statements)
        case None => Err(Malformed)
  }

  /** A macro's statements with distinct parameters bound to the arguments, in a scope of their own. */
  ghost predicate InlinedBody(s: seq<Value>, params: seq<Value>, args: seq<Value>, body: seq<Value>)
    requires |params| == |args|
  {
    |s| == 2 + 2 * |params| + |body| && s[0] == EnvBegin() && s[|s| - 1] == EnvEnd() &&
    (forall i :: 0 <= i < |params| ==> s[1 + 2 * i..3 + 2 * i] == Bind(params[i], args[i])) &&
    s[1 + 2 * |params|..|s| - 1] == body
  }

  /** Unknown names and wrong argument counts fail; a repeated parameter name trips the substitution count. */
  lemma {:induction false} InlineMacroFails(defs: map<string, Value>, n: Value, args: seq<Value>)
    ensures !n.Str? || n.s !in defs ==> InlineMacro(defs, n, args) == Err(UnknownMacro)
    ensures n.Str? && n.s in defs && ParamNames(defs[n.s]).Ok? ==>
      var ps := ParamNames(defs[n.s]).value;
      |args| != |ps| || !Distinct(ps) ==> InlineMacro(defs, n, args) == Err(ArityMismatch)
  {
    if n.Str? && n.s in defs && ParamNames(defs[n.s]).Ok? {
      var ps := ParamNames(defs[n.s]).value;
      if |args| == |ps| {
        ZipSize(ps, args);
      }
    }
  }

  /** A header binding each parameter to its argument, between the scope markers and before the body. */
  lemma {:induction false} HeaderedBody(ps: seq<Value>, args: seq<Value>, h: seq<Value>, body: seq<Value>)
    requires |ps| == |args| && |h| == 2 * |ps|
    requires forall i :: 0 <= i < |ps| ==> h[2 * i..2 * i + 2] == Bind(ps[i], args[i])
    ensures InlinedBody([EnvBegin()] + h + body + [EnvEnd()], ps, args, body)
  {
    var s := [EnvBegin()] + h + body + [EnvEnd()];
    forall i | 0 <= i < |ps| ensures s[1 + 2 * i..3 + 2 * i] == Bind(ps[i], args[i]) {
      assert s[1 + 2 * i..3 + 2 * i] == h[2 * i..2 * i + 2];
    }
    assert s[1 + 2 * |ps|..|s| - 1] == body;
  }

  /**
   * With distinct parameters and one argument per parameter, the call
   * becomes the callee's statements in a scope whose header binds each
   * parameter to its argument.
   */
  lemma {:induction false} InlineMacroExpands(defs: map<string, Value>, n: Value, args: seq<Value>, ps: seq<Value>)
    requires n.Str? && n.s in defs && ParamNames(defs[n.s]) == Ok(ps)
    requires |args| == |ps| && Distinct(ps)
    ensures InlineMacro(defs, n, args).Ok?
    ensures InlinedBody(InlineMacro(defs, n, args).value, ps, args, DecodeMacro(defs[n.s]).value.statements)
  {
    var macro := defs[n.s];
    var subs := ZipMap(ps, args);
    ZipSize(ps, args);
    ZipKeys(ps, args);
    ZipValues(ps, args);
    HeaderSpec(ps, subs);
    var p := DecodeMacro(macro).value;
    var h := Header(ps, subs).value;
    assert forall i :: 0 <= i < |ps| ==> h[2 * i..2 * i + 2] == Bind(ps[i], args[i]);
    HeaderedBody(ps, args, h, p.statements);
    RebuildRoundTrip(MacroParts(p.name, Seq([]), [EnvBegin()] + h + p.statements + [EnvEnd()]));
  }

  /** `inline_macro`, through the expansion method. */
  method InlineMacroCall(defs: map<string, Value>, n: Value, args: seq<Value>) returns (r: Result<seq<Value>>)
    ensures r == InlineMacro(defs, n, args)
  {
    if !n.Str? || n.s !in defs {
      return Err(UnknownMacro);
    }
    var params := ParamNames(defs[n.s]);
    if params.Err? {
      return Err(params.error);
    }
    if |args| != |params.value| {
      return Err(ArityMismatch);
    }
    var expanded := ExpandMacroCall(defs[n.s], ZipMap(params.value, args));
    if expanded.Err? {
      return Err(expanded.error);
    }
    match DecodeMacro(expanded.value)
    case Some(p) => r := Ok(p.statements);
    case None => r := Err(Malformed);
  }

  /** The inliner on one statement: a call site is replaced by the callee's statements, anything else kept. */
  function InlineStep(defs: map<string, Value>, e: Value): Result<seq<Value>>
  {
    match CallSite(e)
    case None => Ok([e])
    case Some((n, args)) => InlineMacro(defs, n, args)
  }

  /** The statement loop of the inliner; the first failing statement's error is the result. */
  function InlineAll(defs: map<string, Value>, stmts: seq<Value>): Result<seq<Value>>
    decreases |stmts|
  {
    if stmts == [] then Ok([])
    else
      var init :- InlineAll(defs, stmts[..|stmts| - 1]);
      var last :- InlineStep(defs, stmts[|stmts| - 1]);
      Ok(init + last)
  }

  /** `expand_all_macro_calls_rule` on one macro. */
  function ApplyInline(defs: map<string, Value>, macro: Value): Result<Value>
  {
    match DecodeMacro(macro)
    case None => Ok(macro)
    case Some(p) =>
      var s :- InlineAll(defs, p.statements);
      Ok(Rebuild(MacroParts(p.name, p.params, s)))
  }

  /** The statements hold no top-level macro call. */
  ghost predicate NoCalls(stmts: seq<Value>)
  {
    forall i :: 0 <= i < |stmts| ==> CallSite(stmts[i]).None?
  }

  /** An inlined call site becomes at least two statements. */
  lemma {:induction false} InlineStepShape(defs: map<string, Value>, e: Value)
    ensures CallSite(e).None? ==> InlineStep(defs, e) == Ok([e])
    ensures CallSite(e).Some? && InlineStep(defs, e).Ok? ==> |InlineStep(defs, e).value| >= 2
  {
    if CallSite(e).Some? && InlineStep(defs, e).Ok? {
      var (n, args) := CallSite(e).value;
      var macro := defs[n.s];
      var ps := ParamNames(macro).value;
      var p := DecodeMacro(macro).value;
      var h := Header(ps, ZipMap(ps, args)).value;
      RebuildRoundTrip(MacroParts(p.name, Seq([]), [EnvBegin()] + h + p.statements + [EnvEnd()]));
    }
  }

  /**
   * Inlining leaves a statement list as it was exactly when it holds no
   * top-level call, and a successful pass over calls lengthens it.
   */
  lemma {:induction false} InlineAllIdentity(defs: map<string, Value>, stmts: seq<Value>)
    ensures NoCalls(stmts) <==> InlineAll(defs, stmts) == Ok(stmts)
    ensures InlineAll(defs, stmts).Ok? ==> |InlineAll(defs, stmts).value| >= |stmts|
    ensures InlineAll(defs, stmts).Ok? && !NoCalls(stmts) ==> |InlineAll(defs, stmts).value| > |stmts|
    decreases |stmts|
  {
    if stmts != [] {
      var init, last := stmts[..|stmts| - 1], stmts[|stmts| - 1];
      InlineAllIdentity(defs, init);
      InlineStepShape(defs, last);
      assert stmts == init + [last];
      assert forall i :: 0 <= i < |init| ==> init[i] == stmts[i];
      assert NoCalls(stmts) <==> NoCalls(init) && CallSite(last).None?;
    }
  }

  /** An error at statement `i`, after a clean prefix, is the error of the whole loop. */
  lemma {:induction false} InlineAllFirstError(defs: map<string, Value>, stmts: seq<Value>, i: nat)
    requires i < |stmts|
    requires InlineAll(defs, stmts[..i]).Ok? && InlineStep(defs, stmts[i]).Err?
    ensures InlineAll(defs, stmts) == Err(InlineStep(defs, stmts[i]).error)
    decreases |stmts|
  {
    var init := stmts[..|stmts| - 1];
    if i < |init| {
      assert init[..i] == stmts[..i] && init[i] == stmts[i];
      InlineAllFirstError(defs, init, i);
    } else {
      assert init == stmts[..i];
    }
  }

  /** `expand_all_macro_calls_rule`, with the source's statement loop. */
  method ExpandAllMacroCalls(defs: map<string, Value>, macro: Value) returns (r: Result<Value>)
    ensures r == ApplyInline(defs, macro)
  {
    var m := AttemptMatch(UserMacroPattern(), macro);
    MatchUserMacro(macro);
    if m.None? {
      return Ok(macro);
    }
    var stmts := Items(m.value["statements"]);
    var acc: seq<Value> := [];
    for i := 0 to |stmts|
      invariant InlineAll(defs, stmts[..i]) == Ok(acc)
    {
      assert stmts[..i + 1][..i] == stmts[..i];
      var site := AttemptMatch(CallSitePattern(), Seq([stmts[i]]));
      CallSiteMatch(stmts[i]);
      var out: Result<seq<Value>>;
      if site.None? {
        out := Ok([stmts[i]]);
      } else {
        out := InlineMacroCall(defs, site.value["macro_name"], Items(site.value["args"]));
      }
      if out.Err? {
        InlineAllFirstError(defs, stmts, i);
        return Err(out.error);
      }
      acc := acc + out.value;
    }
    assert stmts[..|stmts|] == stmts;
    r := Ok(Rebuild(MacroParts(m.value["name"], m.value["params"], acc)));
  }

  // ---------------------------------------------------------------------------
  // compile_macro

  /** `make_expand_all_macro_calls_rule(defs)`: the inlining rule, as the closure the source builds. */
  function InlineRule(defs: map<string, Value>): Value -> Result<Value>
  {
    (v: Value) => ApplyInline(defs, v)
  }

  /**
   * The inlining loop of `compile_macro`, for any rule: passes until one
   * leaves the macro unchanged.  The source has no bound on the number of
   * passes (a macro that calls itself never settles); `fuel` is the model's.
   */
  function Settle(rule: Value -> Result<Value>, macro: Value, fuel: nat): Result<Value>
    decreases fuel
  {
    if fuel == 0 then Err(FuelExhausted)
    else
      var out :- rule(macro);
      if out == macro then Ok(macro) else Settle(rule, out, fuel - 1)
  }

  /** The inlining loop of `compile_macro` with the rule built from `defs`. */
  function InlineFixedPoint(defs: map<string, Value>, macro: Value, fuel: nat): Result<Value>
  {
    Settle(InlineRule(defs), macro, fuel)
  }

  /** The rewriting loop of `compile_macro`: every definition to its fixed point. */
  function RewriteAll(defs: map<string, Value>, fuel: nat): Result<map<string, Value>>
  {
    if forall k :: k in defs ==> FixedPoint(defs[k], fuel).Ok? then
      Ok(map k | k in defs :: FixedPoint(defs[k], fuel).value)
    else Err(FuelExhausted)
  }

  /** `compile_macro`: every definition rewritten, then calls inlined into the named one. */
  function CompileSpec(defs: map<string, Value>, name: string, fuel: nat): Result<Value>
  {
    var rewritten :- RewriteAll(defs, fuel);
    if name !in rewritten then Err(UnknownMacro)
    else InlineFixedPoint(rewritten, rewritten[name], fuel)
  }

  /** A macro whose statements hold no top-level call; anything else trivially. */
  ghost function Inlined(v: Value): bool
  {
    DecodeMacro(v).Some? ==> NoCalls(DecodeMacro(v).value.statements)
  }

  /** A macro that inlining leaves unchanged holds no top-level call. */
  lemma {:induction false} InlineSettled(defs: map<string, Value>, macro: Value)
    requires ApplyInline(defs, macro) == Ok(macro)
    ensures Inlined(macro)
  {
    if DecodeMacro(macro).Some? {
      var p := DecodeMacro(macro).value;
      var s := InlineAll(defs, p.statements).value;
      RebuildRoundTrip(MacroParts(p.name, p.params, s));
      InlineAllIdentity(defs, p.statements);
    }
  }

  /** The first loop of `compile_macro`: each definition rewritten to its fixed point. */
  method RewriteMacros(defs: map<string, Value>, fuel: nat) returns (r: Result<map<string, Value>>)
    ensures r == RewriteAll(defs, fuel)
  {
    var rewritten: map<string, Value> := map[];
    var todo := defs.Keys;
    while todo != {}
      invariant todo <= defs.Keys
      invariant rewritten.Keys == defs.Keys - todo
      invariant forall k :: k in rewritten ==> FixedPoint(defs[k], fuel) == Ok(rewritten[k])
      decreases |todo|
    {
      var k :| k in todo;
      var out := RewriteUntilFixedPoint(defs[k], fuel);
      if out.Err? {
        FixedPointSpec(defs[k], fuel);
        return Err(out.error);
      }
      rewritten := rewritten[k := out.value];
      todo := todo - {k};
    }
    assert rewritten == map k | k in defs :: FixedPoint(defs[k], fuel).value;
    r := Ok(rewritten);
  }

  /** One pass of the loop, unrolled. */
  lemma {:induction false} SettleUnfold(rule: Value -> Result<Value>, macro: Value, fuel: nat, out: Value)
    requires fuel > 0 && rule(macro) == Ok(out)
    ensures Settle(rule, macro, fuel) == if out == macro then Ok(macro) else Settle(rule, out, fuel - 1)
  {
  }

  /** The same, with `rest` the fuel left after the pass. */
  lemma {:induction false} SettleNext(rule: Value -> Result<Value>, macro: Value, fuel: nat, rest: nat, out: Value)
    requires fuel == rest + 1 && rule(macro) == Ok(out)
    ensures out == macro ==> Settle(rule, macro, fuel) == Ok(macro)
    ensures out != macro ==> Settle(rule, macro, fuel) == Settle(rule, out, rest)
  {
    SettleUnfold(rule, macro, fuel, out);
    assert fuel - 1 == rest;
  }

  /**
   * One pass of the second loop of `compile_macro`, whether it changed the
   * macro, and the fuel `rest` left for later passes: the outcome `target`
   * of the remaining passes is kept.
   */
  method InlinePass(defs: map<string, Value>, m: Value, left: nat, ghost target: Result<Value>)
    returns (r: Result<Value>, changed: bool, rest: nat)
    requires InlineFixedPoint(defs, m, left) == target
    ensures r.Err? ==> r == target
    ensures r.Ok? ==> rest < left
    ensures r.Ok? && changed ==> r.value != m && InlineFixedPoint(defs, r.value, rest) == target
    ensures r.Ok? && !changed ==> r.value == m && target == Ok(m) && Inlined(m)
  {
    if left == 0 {
      return Err(FuelExhausted), false, 0;
    }
    r := ExpandAllMacroCalls(defs, m);
    if r.Err? {
      return r, false, 0;
    }
    rest := left - 1;
    assert InlineRule(defs)(m) == r;
    SettleNext(InlineRule(defs), m, left, rest, r.value);
    changed := r.value != m;
    if !changed {
      InlineSettled(defs, m);
    }
  }

  /** The second loop of `compile_macro`: inlining passes until one changes nothing. */
  method InlineUntilFixedPoint(defs: map<string, Value>, macro: Value, fuel: nat) returns (r: Result<Value>)
    ensures r == InlineFixedPoint(defs, macro, fuel)
    ensures r.Ok? ==> Inlined(r.value)
  {
    var m := macro;
    var changed := true;
    var left: nat := fuel;
    ghost var target := InlineFixedPoint(defs, macro, fuel);
    while changed
      invariant changed ==> InlineFixedPoint(defs, m, left) == target
      invariant !changed ==> target == Ok(m) && Inlined(m)
      decreases left
    {
      var out, c, rest := InlinePass(defs, m, left, target);
      if out.Err? {
        return out;
      }
      changed, m, left := c, out.value, rest;
    }
    r := Ok(m);
  }

  /** `compile_macro`. */
  method CompileMacro(defs: map<string, Value>, name: string, fuel: nat) returns (r: Result<Value>)
    ensures r == CompileSpec(defs, name, fuel)
    ensures RewriteAll(defs, fuel).Ok? && name !in defs ==> r == Err(UnknownMacro)
    ensures r.Ok? && DecodeMacro(r.value).Some? ==> NoCalls(DecodeMacro(r.value).value.statements)
  {
    var rewritten := RewriteMacros(defs, fuel);
    if rewritten.Err? {
      return Err(rewritten.error);
    }
    if name !in rewritten.value {
      return Err(UnknownMacro);
    }
    r := InlineUntilFixedPoint(rewritten.value, rewritten.value[name], fuel);
  }
}
