/**
 * The eight Brainfuck instructions and the bracket depth of instruction text.
 * Shared by the tape machine, which keeps its emitted code well bracketed,
 * and by the translator to assembly, which rejects an unmatched `]`.
 */
module Opcodes {

  /** The characters of the instruction set, in the order the machine lists them. */
  const Alphabet: string := "<>+-[].,"

  predicate IsOpcode(c: char)
  {
    c in Alphabet
  }

  predicate AllOpcodes(s: string)
  {
    forall i :: 0 <= i < |s| ==> IsOpcode(s[i])
  }

  /** `n` copies of `c` (Python's `c * n`). */
  function Rep(c: char, n: nat): (r: string)
    ensures |r| == n
    ensures forall i :: 0 <= i < n ==> r[i] == c
  {
    if n == 0 then "" else Rep(c, n - 1) + [c]
  }

  /** +1 for an opening bracket, -1 for a closing one, 0 otherwise. */
  function Step(c: char): int
  {
    if c == '[' then 1 else if c == ']' then -1 else 0
  }

  /** Opening brackets minus closing brackets. */
  function Depth(s: string): int
  {
    if s == [] then 0 else Depth(s[..|s| - 1]) + Step(s[|s| - 1])
  }

  /** No prefix closes more loops than it opens. */
  ghost predicate Wellbracketed(s: string)
  {
    forall k :: 0 <= k <= |s| ==> Depth(s[..k]) >= 0
  }

  /** Every prefix of `b`, started at depth `d`, stays at depth zero or above. */
  ghost predicate StaysOpen(d: int, b: string)
  {
    forall k :: 0 <= k <= |b| ==> d + Depth(b[..k]) >= 0
  }

  predicate BracketFree(s: string)
  {
    forall i :: 0 <= i < |s| ==> s[i] != '[' && s[i] != ']'
  }

  lemma {:induction false} DepthAppend(a: string, b: string)
    ensures Depth(a + b) == Depth(a) + Depth(b)
    decreases |b|
  {
    if b == [] {
      assert a + b == a;
    } else {
      var b' := b[..|b| - 1];
      assert (a + b)[..|a + b| - 1] == a + b';
      DepthAppend(a, b');
    }
  }

  lemma {:induction false} BracketFreeDepth(s: string)
    requires BracketFree(s)
    ensures Depth(s) == 0
    decreases |s|
  {
    if s != [] {
      BracketFreeDepth(s[..|s| - 1]);
    }
  }

  /** Bracket-free text can follow any non-negative depth. */
  lemma {:induction false} BracketFreeStaysOpen(d: int, b: string)
    requires d >= 0 && BracketFree(b)
    ensures StaysOpen(d, b)
  {
    forall k | 0 <= k <= |b| ensures d + Depth(b[..k]) >= 0 {
      BracketFreeDepth(b[..k]);
    }
  }

  /** Appending text that never dips below zero keeps code well bracketed. */
  lemma {:induction false} WellbracketedAppend(a: string, b: string)
    requires Wellbracketed(a) && StaysOpen(Depth(a), b)
    ensures Wellbracketed(a + b)
    ensures Depth(a + b) == Depth(a) + Depth(b)
  {
    DepthAppend(a, b);
    forall k | 0 <= k <= |a + b| ensures Depth((a + b)[..k]) >= 0 {
      if k <= |a| {
        assert (a + b)[..k] == a[..k];
      } else {
        assert (a + b)[..k] == a + b[..k - |a|];
        DepthAppend(a, b[..k - |a|]);
      }
    }
  }

  /** A single closing bracket may follow exactly the code that leaves a loop open. */
  lemma {:induction false} CloseStaysOpen(d: int)
    requires d >= 1
    ensures StaysOpen(d, "]")
    ensures Depth("]") == -1
  {
    assert "]"[..0] == [] && "]"[..1] == "]";
    assert "]"[..|"]"| - 1] == [];
  }

  lemma {:induction false} OpenStaysOpen(d: int)
    requires d >= 0
    ensures StaysOpen(d, "[")
    ensures Depth("[") == 1
  {
    assert "["[..0] == [] && "["[..1] == "[";
    assert "["[..|"["| - 1] == [];
  }

  lemma {:induction false} AllOpcodesAppend(a: string, b: string)
    requires AllOpcodes(a) && AllOpcodes(b)
    ensures AllOpcodes(a + b)
  {
    forall i | 0 <= i < |a + b| ensures IsOpcode((a + b)[i]) {
      if i >= |a| { assert (a + b)[i] == b[i - |a|]; }
    }
  }

  /** Composition: two well-behaved appendices in a row are one. */
  lemma {:induction false} StaysOpenAppend(d: int, b: string, c: string)
    requires StaysOpen(d, b) && StaysOpen(d + Depth(b), c)
    ensures StaysOpen(d, b + c)
    ensures Depth(b + c) == Depth(b) + Depth(c)
  {
    DepthAppend(b, c);
    forall k | 0 <= k <= |b + c| ensures d + Depth((b + c)[..k]) >= 0 {
      if k <= |b| {
        assert (b + c)[..k] == b[..k];
      } else {
        assert (b + c)[..k] == b + c[..k - |b|];
        DepthAppend(b, c[..k - |b|]);
      }
    }
  }

  /** Text that opens and closes the same number of loops and never closes one it did not open. */
  ghost predicate Closed(t: string)
  {
    StaysOpen(0, t) && Depth(t) == 0
  }

  lemma {:induction false} ClosedAppend(a: string, b: string)
    requires Closed(a) && Closed(b)
    ensures Closed(a + b)
  {
    StaysOpenAppend(0, a, b);
  }

  lemma {:induction false} BracketFreeClosed(s: string)
    requires BracketFree(s)
    ensures Closed(s)
  {
    BracketFreeStaysOpen(0, s);
    BracketFreeDepth(s);
  }

  /** A loop around closed text is closed. */
  lemma {:induction false} ClosedLoop(b: string)
    requires Closed(b)
    ensures Closed("[" + b + "]")
  {
    OpenStaysOpen(0);
    StaysOpenAppend(0, "[", b);
    CloseStaysOpen(Depth("[" + b));
    StaysOpenAppend(0, "[" + b, "]");
  }

  /** Closed text appended to well-bracketed code keeps it well bracketed at the same depth. */
  lemma {:induction false} ClosedKeepsWellbracketed(a: string, t: string)
    requires Wellbracketed(a) && Closed(t)
    ensures Wellbracketed(a + t) && Depth(a + t) == Depth(a)
  {
    assert Depth(a) >= 0 by { assert a[..|a|] == a; }
    forall k | 0 <= k <= |t| ensures Depth(a) + Depth(t[..k]) >= 0 {
    }
    WellbracketedAppend(a, t);
  }
}
