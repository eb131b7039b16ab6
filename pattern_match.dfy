/**
 * Limited structural pattern matching over the compiler's tagged trees.
 *
 * A match either fails or yields the list of (name, value) bindings it made,
 * in left-to-right order; `AttemptMatch` turns that list into a dictionary in
 * which a later binding of a name overrides an earlier one.
 */
module PatternMatch {
  import opened Wrappers

  /** The trees the compiler works on: string atoms, integer atoms and ordered sequences. */
  datatype Value = Str(s: string) | Int(i: int) | Seq(items: seq<Value>)

  /**
   * Patterns: a positional sequence, a string compared for equality, a named
   * wildcard (`Star`), an anonymous wildcard (`One`), a pattern that matches
   * nothing (`Zero`) and a head/tail split of a sequence (`Cons`).
   */
  datatype Pattern =
    | PSeq(ps: seq<Pattern>)
    | PStr(lit: string)
    | Star(name: string)
    | One
    | Zero
    | Cons(head: Pattern, tail: Pattern)

  type Binding = (string, Value)

  type Bindings = map<string, Value>

  /** `_match`: dispatch on the kind of pattern. */
  function Match(p: Pattern, e: Value): Option<seq<Binding>>
    decreases p, 2
  {
    match p
    case PSeq(ps) => MatchList(ps, e)
    case PStr(s) => MatchString(s, e)
    case Star(n) => Some([(n, e)])
    case One => Some([])
    case Zero => None
    case Cons(h, t) =>
      if !e.Seq? || |e.items| == 0 then None
      else
        match Match(h, e.items[0])
        case None => None
        case Some(x) =>
          match Match(t, Seq(e.items[1..]))
          case None => None
          case Some(y) => Some(x + y)
  }

  /** `_match_list`: only a sequence of the same length can match. */
  function MatchList(ps: seq<Pattern>, e: Value): Option<seq<Binding>>
    decreases ps, 1
  {
    if !e.Seq? || |ps| != |e.items| then None
    else MatchFold(ps, e.items, [])
  }

  /** The loop of `_match_list`: `bindings += z` for each element, stopping at the first failure. */
  function MatchFold(ps: seq<Pattern>, es: seq<Value>, acc: seq<Binding>): Option<seq<Binding>>
    requires |ps| == |es|
    decreases ps, 0
  {
    if ps == [] then Some(acc)
    else
      match Match(ps[0], es[0])
      case None => None
      case Some(z) => MatchFold(ps[1..], es[1..], acc + z)
  }

  /** `_match_string`. */
  function MatchString(s: string, e: Value): Option<seq<Binding>>
  {
    if e == Str(s) then Some([]) else None
  }

  /** `dict(bindings)`: insert left to right, so a later binding of a name wins. */
  function ToMap(bs: seq<Binding>): Bindings
  {
    ToMapFrom(bs, map[])
  }

  function ToMapFrom(bs: seq<Binding>, acc: Bindings): Bindings
  {
    if bs == [] then acc else ToMapFrom(bs[1..], acc[bs[0].0 := bs[0].1])
  }

  /** `Matcher.attempt_match`. */
  function AttemptMatch(p: Pattern, e: Value): Option<Bindings>
  {
    match Match(p, e)
    case None => None
    case Some(bs) => Some(ToMap(bs))
  }

  /** `MatchReplaceRule.__call__`: the action's result on a match, the input unchanged otherwise. */
  function Replace(p: Pattern, action: Bindings -> Value, e: Value): Value
  {
    match AttemptMatch(p, e)
    case None => e
    case Some(m) => action(m)
  }

  // ---------------------------------------------------------------------------
  // Reference definitions

  /** Every element pattern matches the element at the same position. */
  ghost predicate AllMatch(ps: seq<Pattern>, es: seq<Value>)
  {
    |ps| == |es| && forall i :: 0 <= i < |ps| ==> Match(ps[i], es[i]).Some?
  }

  /** The element bindings concatenated left to right. */
  ghost function Concatenated(ps: seq<Pattern>, es: seq<Value>): seq<Binding>
    requires AllMatch(ps, es)
  {
    if ps == [] then []
    else Match(ps[0], es[0]).value + Concatenated(ps[1..], es[1..])
  }

  /** The value of the rightmost binding of `n`, if any. */
  function LastValue(bs: seq<Binding>, n: string): Option<Value>
  {
    if bs == [] then None
    else if bs[|bs| - 1].0 == n then Some(bs[|bs| - 1].1)
    else LastValue(bs[..|bs| - 1], n)
  }

  // ---------------------------------------------------------------------------
  // Properties

  lemma {:induction false} MatchFoldSpec(ps: seq<Pattern>, es: seq<Value>, acc: seq<Binding>)
    requires |ps| == |es|
    ensures MatchFold(ps, es, acc).Some? <==> AllMatch(ps, es)
    ensures AllMatch(ps, es) ==> MatchFold(ps, es, acc) == Some(acc + Concatenated(ps, es))
    decreases |ps|
  {
    if ps == [] {
      assert acc + [] == acc;
    } else {
      match Match(ps[0], es[0])
      case None =>
        assert !AllMatch(ps, es);
      case Some(z) =>
        MatchFoldSpec(ps[1..], es[1..], acc + z);
        if AllMatch(ps[1..], es[1..]) {
          forall i | 0 <= i < |ps| ensures Match(ps[i], es[i]).Some? {
            if i > 0 { assert ps[i] == ps[1..][i - 1] && es[i] == es[1..][i - 1]; }
          }
          assert acc + z + Concatenated(ps[1..], es[1..]) == acc + (z + Concatenated(ps[1..], es[1..]));
        } else {
          var i :| 0 <= i < |ps| - 1 && !Match(ps[1..][i], es[1..][i]).Some?;
          assert ps[1..][i] == ps[i + 1] && es[1..][i] == es[i + 1];
        }
    }
  }

  /**
   * A sequence pattern matches exactly the sequences of its own length whose
   * every element matches; the bindings are the elements' concatenated left to
   * right, and a single failing element fails the whole match.
   */
  lemma {:induction false} SequencePattern(ps: seq<Pattern>, e: Value)
    ensures Match(PSeq(ps), e).Some? <==> e.Seq? && AllMatch(ps, e.items)
    ensures e.Seq? && AllMatch(ps, e.items) ==> Match(PSeq(ps), e) == Some(Concatenated(ps, e.items))
  {
    assert Match(PSeq(ps), e) == MatchList(ps, e);
    if e.Seq? && |ps| == |e.items| {
      MatchFoldSpec(ps, e.items, []);
      if AllMatch(ps, e.items) {
        assert [] + Concatenated(ps, e.items) == Concatenated(ps, e.items);
      }
    }
  }

  /** A head/tail split whose tail is a sequence pattern behaves as the longer sequence pattern. */
  lemma {:induction false} ConsOfSequence(h: Pattern, ts: seq<Pattern>, e: Value)
    ensures Match(Cons(h, PSeq(ts)), e) == Match(PSeq([h] + ts), e)
  {
    SequencePattern([h] + ts, e);
    if e.Seq? && |e.items| > 0 {
      var tail := Seq(e.items[1..]);
      SequencePattern(ts, tail);
      assert ([h] + ts)[1..] == ts;
      if AllMatch([h] + ts, e.items) {
        forall i | 0 <= i < |ts| ensures Match(ts[i], tail.items[i]).Some? {
          assert ([h] + ts)[i + 1] == ts[i];
        }
      }
    }
  }

  /** The four leaf patterns, seen through `attempt_match`. */
  lemma {:induction false} LeafPatterns(n: string, s: string, e: Value)
    ensures AttemptMatch(Star(n), e) == Some(map[n := e])
    ensures AttemptMatch(One, e) == Some(map[])
    ensures AttemptMatch(Zero, e) == None
    ensures AttemptMatch(PStr(s), e) == if e == Str(s) then Some(map[]) else None
  {
    assert ToMapFrom([(n, e)][1..], map[][n := e]) == map[n := e];
  }

  /** A head/tail split fails on an atom and on the empty sequence. */
  lemma {:induction false} ConsNeedsNonEmptySequence(h: Pattern, t: Pattern, e: Value)
    ensures Match(Cons(h, t), e).Some? ==> e.Seq? && |e.items| > 0
    ensures Match(Cons(h, t), e).Some? <==>
      e.Seq? && |e.items| > 0 && Match(h, e.items[0]).Some? && Match(t, Seq(e.items[1..])).Some?
  {
  }

  lemma {:induction false} ToMapFromSpec(bs: seq<Binding>, acc: Bindings, n: string)
    ensures LastValue(bs, n).Some? ==>
      n in ToMapFrom(bs, acc) && ToMapFrom(bs, acc)[n] == LastValue(bs, n).value
    ensures LastValue(bs, n).None? ==>
      (n in ToMapFrom(bs, acc) <==> n in acc) && (n in acc ==> ToMapFrom(bs, acc)[n] == acc[n])
    decreases |bs|
  {
    if bs != [] {
      ToMapFromSpec(bs[1..], acc[bs[0].0 := bs[0].1], n);
      LastValueOfTail(bs, n);
    }
  }

  /** Peeling the first binding off: the last binding of `n` is in the tail unless only the head binds it. */
  lemma {:induction false} LastValueOfTail(bs: seq<Binding>, n: string)
    requires bs != []
    ensures LastValue(bs, n) ==
      match LastValue(bs[1..], n)
      case Some(v) => Some(v)
      case None => if bs[0].0 == n then Some(bs[0].1) else None
    decreases |bs|
  {
    if |bs| > 1 {
      assert bs[1..][..|bs[1..]| - 1] == bs[..|bs| - 1][1..];
      LastValueOfTail(bs[..|bs| - 1], n);
    }
  }

  lemma {:induction false} LastValueSome(bs: seq<Binding>, n: string)
    ensures LastValue(bs, n).Some? <==> exists i :: 0 <= i < |bs| && bs[i].0 == n
    decreases |bs|
  {
    if bs != [] {
      var init := bs[..|bs| - 1];
      LastValueSome(init, n);
      if exists i :: 0 <= i < |init| && init[i].0 == n {
        var i :| 0 <= i < |init| && init[i].0 == n;
        assert bs[i].0 == n;
      }
      if exists i :: 0 <= i < |bs| && bs[i].0 == n {
        var i :| 0 <= i < |bs| && bs[i].0 == n;
        if i < |bs| - 1 { assert init[i].0 == n; }
      }
    }
  }

  /**
   * `attempt_match` binds exactly the names the match bound, each to the value
   * of its last (rightmost) binding.
   */
  lemma {:induction false} AttemptMatchLastWins(p: Pattern, e: Value, n: string)
    requires Match(p, e).Some?
    ensures AttemptMatch(p, e).Some?
    ensures n in AttemptMatch(p, e).value <==> LastValue(Match(p, e).value, n).Some?
    ensures n in AttemptMatch(p, e).value <==> exists i :: 0 <= i < |Match(p, e).value| && Match(p, e).value[i].0 == n
    ensures n in AttemptMatch(p, e).value ==> AttemptMatch(p, e).value[n] == LastValue(Match(p, e).value, n).value
  {
    var bs := Match(p, e).value;
    ToMapFromSpec(bs, map[], n);
    LastValueSome(bs, n);
  }

  /** A replace rule whose pattern cannot match is the identity. */
  lemma {:induction false} ReplaceUnmatched(p: Pattern, action: Bindings -> Value, e: Value)
    requires Match(p, e).None?
    ensures Replace(p, action, e) == e
  {
  }

  // ---------------------------------------------------------------------------
  // The demonstrations at the end of the source file, as lemmas

  lemma {:induction false} MatchPair(p: Pattern, q: Pattern, v: Value, w: Value)
    ensures Match(PSeq([p, q]), Seq([v, w])) ==
      if Match(p, v).Some? && Match(q, w).Some? then Some(Match(p, v).value + Match(q, w).value) else None
  {
    var ps, es := [p, q], [v, w];
    assert ps[1..] == [q] && es[1..] == [w];
    assert Match(PSeq(ps), Seq(es)) == MatchFold(ps, es, []);
    match Match(p, v)
    case None =>
    case Some(x) =>
      assert MatchFold(ps, es, []) == MatchFold([q], [w], [] + x);
      match Match(q, w)
      case None =>
      case Some(y) =>
        assert MatchFold([q], [w], [] + x) == MatchFold([], [], [] + x + y);
        assert [] + x + y == x + y;
  }

  /** `dict` of two bindings. */
  lemma {:induction false} ToMapTwo(n1: string, v1: Value, n2: string, v2: Value)
    ensures ToMap([(n1, v1), (n2, v2)]) == map[n1 := v1, n2 := v2]
  {
    var bs := [(n1, v1), (n2, v2)];
    assert bs[1..] == [(n2, v2)] && bs[1..][1..] == [];
    assert ToMap(bs) == ToMapFrom(bs[1..], map[n1 := v1]);
    assert ToMapFrom(bs[1..], map[n1 := v1]) == ToMapFrom(bs[1..][1..], map[n1 := v1][n2 := v2]);
  }

  /** `dict` of three bindings. */
  lemma {:induction false} ToMapThree(n1: string, v1: Value, n2: string, v2: Value, n3: string, v3: Value)
    ensures ToMap([(n1, v1), (n2, v2), (n3, v3)]) == map[n1 := v1, n2 := v2, n3 := v3]
  {
    var bs := [(n1, v1), (n2, v2), (n3, v3)];
    assert bs[1..] == [(n2, v2), (n3, v3)] && bs[1..][1..] == [(n3, v3)] && bs[1..][1..][1..] == [];
    assert ToMap(bs) == ToMapFrom(bs[1..], map[n1 := v1]);
    assert ToMapFrom(bs[1..], map[n1 := v1]) == ToMapFrom(bs[1..][1..], map[n1 := v1][n2 := v2]);
    assert ToMapFrom(bs[1..][1..], map[n1 := v1][n2 := v2]) == ToMapFrom(bs[1..][1..][1..], map[n1 := v1][n2 := v2][n3 := v3]);
  }

  /** One step of the element loop of `_match_list`. */
  lemma {:induction false} MatchFoldCons(p: Pattern, ps: seq<Pattern>, e: Value, es: seq<Value>, acc: seq<Binding>)
    requires |ps| == |es|
    ensures MatchFold([p] + ps, [e] + es, acc) ==
      match Match(p, e) case None => None case Some(z) => MatchFold(ps, es, acc + z)
  {
    assert ([p] + ps)[1..] == ps && ([e] + es)[1..] == es;
  }

  /** A three-element tuple pattern: every element must match, and the bindings are concatenated. */
  lemma {:induction false} MatchTriple(p: Pattern, q: Pattern, r: Pattern, v: Value)
    ensures Match(PSeq([p, q, r]), v) ==
      if v.Seq? && |v.items| == 3 && Match(p, v.items[0]).Some? && Match(q, v.items[1]).Some? && Match(r, v.items[2]).Some?
      then Some(Match(p, v.items[0]).value + Match(q, v.items[1]).value + Match(r, v.items[2]).value)
      else None
  {
    if v.Seq? && |v.items| == 3 {
      var es := v.items;
      assert [p, q, r] == [p] + [q, r] && es == [es[0]] + [es[1], es[2]];
      assert [q, r] == [q] + [r] && [es[1], es[2]] == [es[1]] + [es[2]];
      assert [r] == [r] + [] && [es[2]] == [es[2]] + [];
      assert Match(PSeq([p, q, r]), v) == MatchFold([p, q, r], es, []);
      MatchFoldCons(p, [q, r], es[0], [es[1], es[2]], []);
      match Match(p, es[0])
      case None =>
      case Some(x) =>
        MatchFoldCons(q, [r], es[1], [es[2]], [] + x);
        match Match(q, es[1])
        case None =>
        case Some(y) =>
          MatchFoldCons(r, [], es[2], [], [] + x + y);
          match Match(r, es[2])
          case None =>
          case Some(z) =>
            assert [] + x + y + z == x + y + z;
    }
  }

  /** A four-element tuple pattern. */
  lemma {:induction false} MatchQuad(p: Pattern, q: Pattern, r: Pattern, t: Pattern, v: Value)
    ensures Match(PSeq([p, q, r, t]), v) ==
      if v.Seq? && |v.items| == 4 && Match(p, v.items[0]).Some? && Match(q, v.items[1]).Some? &&
         Match(r, v.items[2]).Some? && Match(t, v.items[3]).Some?
      then Some(Match(p, v.items[0]).value + Match(q, v.items[1]).value + Match(r, v.items[2]).value + Match(t, v.items[3]).value)
      else None
  {
    if v.Seq? && |v.items| == 4 {
      var es := v.items;
      assert [p, q, r, t] == [p] + [q, r, t] && es == [es[0]] + [es[1], es[2], es[3]];
      assert Match(PSeq([p, q, r, t]), v) == MatchFold([p, q, r, t], es, []);
      MatchFoldCons(p, [q, r, t], es[0], [es[1], es[2], es[3]], []);
      if Match(p, es[0]).Some? {
        var x := Match(p, es[0]).value;
        MatchFoldThree(q, r, t, es[1], es[2], es[3], [] + x);
        assert [] + x == x;
      }
    }
  }

  /** The element loop over the last three elements of a tuple, from the bindings `acc` gathered so far. */
  lemma {:induction false} MatchFoldThree(q: Pattern, r: Pattern, t: Pattern, e1: Value, e2: Value, e3: Value, acc: seq<Binding>)
    ensures MatchFold([q, r, t], [e1, e2, e3], acc) ==
      if Match(q, e1).Some? && Match(r, e2).Some? && Match(t, e3).Some?
      then Some(acc + Match(q, e1).value + Match(r, e2).value + Match(t, e3).value)
      else None
  {
    assert [q, r, t] == [q] + [r, t] && [e1, e2, e3] == [e1] + [e2, e3];
    assert [r, t] == [r] + [t] && [e2, e3] == [e2] + [e3];
    assert [t] == [t] + [] && [e3] == [e3] + [];
    MatchFoldCons(q, [r, t], e1, [e2, e3], acc);
    match Match(q, e1)
    case None =>
    case Some(y) =>
      MatchFoldCons(r, [t], e2, [e3], acc + y);
      match Match(r, e2)
      case None =>
      case Some(z) =>
        MatchFoldCons(t, [], e3, [], acc + y + z);
  }

  lemma {:induction false} MatchSingle(p: Pattern, v: Value)
    ensures Match(PSeq([p]), Seq([v])) == Match(p, v)
  {
    SequencePattern([p], Seq([v]));
    if Match(p, v).Some? {
      assert AllMatch([p], [v]);
      assert [p][1..] == [] && [v][1..] == [];
      assert Concatenated([p], [v]) == Match(p, v).value + [];
      assert Match(p, v).value + [] == Match(p, v).value;
    } else {
      assert !AllMatch([p], [v]) by { assert [p][0] == p; }
    }
  }

  function GreetingAction(m: Bindings): Value
  {
    Seq([Seq([Str("greeting"), Seq([Str("hello"), Str("world"), if "x" in m then m["x"] else Str("")])])])
  }

  function LocalDemoPattern(): Pattern
  {
    PSeq([PSeq([PStr("local"), Star("x")])])
  }

  lemma {:induction false} DemoLocalRule()
    ensures Replace(LocalDemoPattern(), GreetingAction, Str("foo")) == Str("foo")
    ensures Replace(LocalDemoPattern(), GreetingAction, Seq([Str("foo")])) == Seq([Str("foo")])
    ensures Replace(LocalDemoPattern(), GreetingAction, Seq([Seq([Str("local")])])) == Seq([Seq([Str("local")])])
    ensures Replace(LocalDemoPattern(), GreetingAction, Seq([Seq([Str("local"), Str("hi"), Str("ho")])]))
         == Seq([Seq([Str("local"), Str("hi"), Str("ho")])])
    ensures Replace(LocalDemoPattern(), GreetingAction, Seq([Seq([Str("local"), Str("violin_tuna")])]))
         == Seq([Seq([Str("greeting"), Seq([Str("hello"), Str("world"), Str("violin_tuna")])])])
  {
    var inner := PSeq([PStr("local"), Star("x")]);
    MatchSingle(inner, Str("foo"));
    MatchSingle(inner, Seq([Str("local")]));
    MatchSingle(inner, Seq([Str("local"), Str("hi"), Str("ho")]));
    MatchSingle(inner, Seq([Str("local"), Str("violin_tuna")]));
    MatchPair(PStr("local"), Star("x"), Str("local"), Str("violin_tuna"));
    assert [] + [("x", Str("violin_tuna"))] == [("x", Str("violin_tuna"))];
    LeafPatterns("x", "local", Str("violin_tuna"));
  }

  function OhaiAction(m: Bindings): Value
  {
    var get := (n: string) => if n in m then m[n] else Str("");
    Seq([Str("ohai"), get("x"), get("y"), get("z"), Str("cat")])
  }

  function DogPattern(): Pattern
  {
    Cons(PStr("hello"), Cons(Star("x"), Cons(Star("y"), Cons(Star("z"), Cons(PStr("dog"), One)))))
  }

  function Words(ws: seq<string>): Value
  {
    Seq(seq(|ws|, i requires 0 <= i < |ws| => Str(ws[i])))
  }

  /** Peeling one word off a sentence. */
  lemma {:induction false} WordsSplit(ws: seq<string>)
    requires ws != []
    ensures Words(ws).items[0] == Str(ws[0])
    ensures Seq(Words(ws).items[1..]) == Words(ws[1..])
  {
  }

  lemma {:induction false} ConsStarStep(n: string, t: Pattern, ws: seq<string>)
    requires ws != []
    ensures Match(Cons(Star(n), t), Words(ws)) ==
      match Match(t, Words(ws[1..])) case None => None case Some(y) => Some([(n, Str(ws[0]))] + y)
  {
    WordsSplit(ws);
  }

  lemma {:induction false} ConsLitStep(s: string, t: Pattern, ws: seq<string>)
    requires ws != []
    ensures Match(Cons(PStr(s), t), Words(ws)) == if ws[0] == s then Match(t, Words(ws[1..])) else None
  {
    WordsSplit(ws);
    if ws[0] == s {
      match Match(t, Words(ws[1..]))
      case None =>
      case Some(y) => assert [] + y == y;
    }
  }

  /** The head/tail pattern on any sentence: "hello", three words, "dog", then anything at all. */
  lemma {:induction false} DogSentence(ws: seq<string>)
    ensures Replace(DogPattern(), OhaiAction, Words(ws)) ==
      if |ws| >= 5 && ws[0] == "hello" && ws[4] == "dog" then Words(["ohai", ws[1], ws[2], ws[3], "cat"])
      else Words(ws)
  {
    if |ws| >= 5 {
      DogLong(ws);
      if ws[0] == "hello" && ws[4] == "dog" {
        DogBindings(Str(ws[1]), Str(ws[2]), Str(ws[3]));
        DogOhai(ws);
      }
    } else {
      DogShort(ws);
    }
  }

  /** On five or more words the pattern binds the three middle words, or fails on the literals. */
  lemma {:induction false} DogLong(ws: seq<string>)
    requires |ws| >= 5
    ensures Match(DogPattern(), Words(ws)) ==
      if ws[0] == "hello" && ws[4] == "dog" then Some([("x", Str(ws[1])), ("y", Str(ws[2])), ("z", Str(ws[3]))])
      else None
  {
    var t5 := Cons(PStr("dog"), One);
    var t4 := Cons(Star("z"), t5);
    var t3 := Cons(Star("y"), t4);
    var t2 := Cons(Star("x"), t3);
    var w4 := ws[4..];
    ConsLitStep("dog", One, w4);
    assert w4[1..] == ws[5..];
    ConsStarStep("z", t5, ws[3..]);
    assert ws[3..][1..] == w4;
    ConsStarStep("y", t4, ws[2..]);
    assert ws[2..][1..] == ws[3..];
    ConsStarStep("x", t3, ws[1..]);
    assert ws[1..][1..] == ws[2..];
    ConsLitStep("hello", t2, ws);
    if ws[0] == "hello" && ws[4] == "dog" {
      assert [("x", Str(ws[1]))] + ([("y", Str(ws[2]))] + ([("z", Str(ws[3]))] + [])) ==
        [("x", Str(ws[1])), ("y", Str(ws[2])), ("z", Str(ws[3]))];
    }
  }

  /** Three distinct names bound in order. */
  lemma {:induction false} DogBindings(a: Value, b: Value, c: Value)
    ensures ToMap([("x", a), ("y", b), ("z", c)]) == map["x" := a, "y" := b, "z" := c]
  {
    var bs := [("x", a), ("y", b), ("z", c)];
    assert bs[1..] == [("y", b), ("z", c)];
    assert bs[1..][1..] == [("z", c)];
    assert ToMapFrom(bs[1..], map["x" := a]) == ToMapFrom(bs[1..][1..], map["x" := a, "y" := b]);
  }

  /** The action on the three middle words. */
  lemma {:induction false} DogOhai(ws: seq<string>)
    requires |ws| >= 5
    ensures OhaiAction(map["x" := Str(ws[1]), "y" := Str(ws[2]), "z" := Str(ws[3])]) == Words(["ohai", ws[1], ws[2], ws[3], "cat"])
  {
    assert Words(["ohai", ws[1], ws[2], ws[3], "cat"]).items == [Str("ohai"), Str(ws[1]), Str(ws[2]), Str(ws[3]), Str("cat")];
  }

  /** Sentences of fewer than five words never match. */
  lemma {:induction false} DogShort(ws: seq<string>)
    requires |ws| < 5
    ensures Match(DogPattern(), Words(ws)) == None
  {
    var t5 := Cons(PStr("dog"), One);
    var t4 := Cons(Star("z"), t5);
    var t3 := Cons(Star("y"), t4);
    var t2 := Cons(Star("x"), t3);
    if ws != [] {
      ConsLitStep("hello", t2, ws);
      if |ws| > 1 {
        ConsStarStep("x", t3, ws[1..]);
        if |ws| > 2 {
          ConsStarStep("y", t4, ws[2..]);
          assert ws[1..][1..] == ws[2..];
          if |ws| > 3 {
            ConsStarStep("z", t5, ws[3..]);
            assert ws[2..][1..] == ws[3..];
            assert ws[3..][1..] == [];
            assert Words([]) == Seq([]);
          } else {
            assert ws[2..][1..] == [];
          }
        } else {
          assert ws[1..][1..] == [];
        }
      } else {
        assert ws[1..] == [];
      }
    }
  }

  lemma {:induction false} DemoHeadTailRule()
    ensures Replace(DogPattern(), OhaiAction, Str("hello")) == Str("hello")
    ensures Replace(DogPattern(), OhaiAction, Str("hello this is dog")) == Str("hello this is dog")
    ensures Replace(DogPattern(), OhaiAction, Words(["hello", "this", "is", "dog"]))
         == Words(["hello", "this", "is", "dog"])
    ensures Replace(DogPattern(), OhaiAction, Words(["hello", "yes", "this", "is", "dog"]))
         == Words(["ohai", "yes", "this", "is", "cat"])
    ensures Replace(DogPattern(), OhaiAction, Words(["hello", "yes", "this", "is", "cat"]))
         == Words(["hello", "yes", "this", "is", "cat"])
    ensures Replace(DogPattern(), OhaiAction, Words(["hello", "i", "am", "ceiling", "dog"]))
         == Words(["ohai", "i", "am", "ceiling", "cat"])
  {
    DogSentence(["hello", "this", "is", "dog"]);
    DogSentence(["hello", "yes", "this", "is", "dog"]);
    DogSentence(["hello", "yes", "this", "is", "cat"]);
    DogSentence(["hello", "i", "am", "ceiling", "dog"]);
  }
}
