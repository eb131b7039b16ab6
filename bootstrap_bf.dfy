// The stand-alone Brainfuck to assembly translator: one pass over the
// program text with a label counter and a stack of open loop labels.

module BootstrapBf {
  import opened Wrappers
  import opened Opcodes

  /**
   * The assembly fragments of one target architecture.  The translator
   * treats them as opaque text.
   */
  datatype Arch = Arch(
    programStart: string, programEnd: string,
    dpLeft: string, dpRight: string, dpInc: string, dpDec: string,
    writeChar: string, readChar: string,
    beginWhile1: string, beginWhile2: string, beginWhile3: string,
    endWhile1: string, endWhile2: string, endWhile3: string)

  // ---------------------------------------------------------------------------
  // Labels: '%04x' % i

  const HexDigits: string := "0123456789abcdef"

  function HexDigit(d: nat): char
    requires d < 16
  {
    HexDigits[d]
  }

  /** The value of a lowercase hexadecimal digit. */
  function DigitValue(c: char): nat
  {
    if '0' <= c <= '9' then c as int - '0' as int
    else if 'a' <= c <= 'f' then c as int - 'a' as int + 10
    else 0
  }

  /** The shortest lowercase hexadecimal spelling of `i`. */
  function Hex(i: nat): string
    decreases i
  {
    if i < 16 then [HexDigit(i)] else Hex(i / 16) + [HexDigit(i % 16)]
  }

  /** `'%04x' % i`: the hexadecimal spelling, padded with zeros to at least four digits. */
  function Label(i: nat): string
  {
    if |Hex(i)| >= 4 then Hex(i) else Rep('0', 4 - |Hex(i)|) + Hex(i)
  }

  /** The number a string of hexadecimal digits denotes. */
  function HexValue(s: string): nat
    decreases |s|
  {
    if s == [] then 0 else HexValue(s[..|s| - 1]) * 16 + DigitValue(s[|s| - 1])
  }

  predicate IsHexText(s: string)
  {
    forall k :: 0 <= k < |s| ==> s[k] in HexDigits
  }

  lemma {:induction false} DigitRoundTrip(d: nat)
    requires d < 16
    ensures DigitValue(HexDigit(d)) == d && HexDigit(d) in HexDigits
  {
  }

  /** The spelling denotes the number and uses only hexadecimal digits. */
  lemma {:induction false} HexRoundTrip(i: nat)
    ensures HexValue(Hex(i)) == i && IsHexText(Hex(i)) && |Hex(i)| >= 1
    decreases i
  {
    if i < 16 {
      DigitRoundTrip(i);
      assert Hex(i)[..0] == [];
    } else {
      HexRoundTrip(i / 16);
      DigitRoundTrip(i % 16);
      var h := Hex(i / 16);
      assert Hex(i)[..|Hex(i)| - 1] == h;
    }
  }

  /** Leading zeros do not change the value. */
  lemma {:induction false} LeadingZeros(n: nat, t: string)
    ensures HexValue(Rep('0', n) + t) == HexValue(t)
    decreases |t|
  {
    if t == [] {
      assert Rep('0', n) + t == Rep('0', n);
      RepZeros(n);
    } else {
      var t0 := t[..|t| - 1];
      assert (Rep('0', n) + t)[..|Rep('0', n) + t| - 1] == Rep('0', n) + t0;
      LeadingZeros(n, t0);
    }
  }

  lemma {:induction false} RepZeros(n: nat)
    ensures HexValue(Rep('0', n)) == 0
    decreases n
  {
    if n > 0 {
      RepZeros(n - 1);
      assert Rep('0', n)[..n - 1] == Rep('0', n - 1);
    }
  }

  /** Every hexadecimal spelling of a number below 16^k has at most k digits. */
  lemma {:induction false} HexLength(i: nat, k: nat, bound: nat)
    requires k >= 1 && bound == Pow16(k) && i < bound
    ensures |Hex(i)| <= k
    decreases k
  {
    if i >= 16 {
      HexLength(i / 16, k - 1, Pow16(k - 1));
    }
  }

  function Pow16(k: nat): nat
  {
    if k == 0 then 1 else 16 * Pow16(k - 1)
  }

  /** `'%04x' % i` is lowercase hexadecimal of at least four digits and denotes `i`. */
  lemma {:induction false} LabelValue(i: nat)
    ensures HexValue(Label(i)) == i
    ensures IsHexText(Label(i)) && |Label(i)| >= 4
  {
    HexRoundTrip(i);
    if |Hex(i)| < 4 {
      LeadingZeros(4 - |Hex(i)|, Hex(i));
      var z := Rep('0', 4 - |Hex(i)|);
      assert forall k :: 0 <= k < |z| ==> z[k] in HexDigits;
    }
  }

  /** Below 0x10000 the label is exactly four digits wide. */
  lemma {:induction false} LabelWidth(i: nat)
    requires i < 0x10000
    ensures |Label(i)| == 4
  {
    HexLength(i, 4, Pow16(4));
  }

  /** Distinct counter values get distinct labels, so no two loops share one. */
  lemma {:induction false} LabelInjective(i: nat, j: nat)
    ensures Label(i) == Label(j) <==> i == j
  {
    LabelValue(i);
    LabelValue(j);
  }

  // ---------------------------------------------------------------------------
  // The translation

  /** `begin_while` for label `i`. */
  function BeginWhile(arch: Arch, i: nat): string
  {
    arch.beginWhile1 + Label(i) + arch.beginWhile2 + Label(i) + arch.beginWhile3
  }

  /** `end_while` for label `i`. */
  function EndWhile(arch: Arch, i: nat): string
  {
    arch.endWhile1 + Label(i) + arch.endWhile2 + Label(i) + arch.endWhile3
  }

  /** The fixed fragment of each instruction other than the brackets; nothing for any other character. */
  function Fragment(arch: Arch, c: char): string
  {
    if c == '<' then arch.dpLeft
    else if c == '>' then arch.dpRight
    else if c == '+' then arch.dpInc
    else if c == '-' then arch.dpDec
    else if c == '.' then arch.writeChar
    else if c == ',' then arch.readChar
    else ""
  }

  /**
   * The translator part-way through: the fragments emitted so far (after
   * `PROGRAM_START`), the next counter value, the open labels, and whether
   * it has died.
   */
  datatype Scan = Scan(out: string, next: nat, labels: seq<nat>, status: Outcome)

  const Start := Scan("", 0, [], Pass)

  /** One character of the loop; a `]` with no open label dies, and a dead translator stays dead. */
  function StepChar(arch: Arch, r: Scan, c: char): Scan
  {
    if r.status.Fail? then r
    else if c == '[' then Scan(r.out + BeginWhile(arch, r.next), r.next + 1, r.labels + [r.next], Pass)
    else if c == ']' then
      if r.labels == [] then r.(status := Fail(UnmatchedClose))
      else Scan(r.out + EndWhile(arch, r.labels[|r.labels| - 1]), r.next, r.labels[..|r.labels| - 1], Pass)
    else r.(out := r.out + Fragment(arch, c))
  }

  /** The loop over the characters, from state `r`. */
  function ScanFrom(arch: Arch, r: Scan, s: string): Scan
    decreases |s|
  {
    if s == [] then r else StepChar(arch, ScanFrom(arch, r, s[..|s| - 1]), s[|s| - 1])
  }

  /**
   * `compile_for_arch`: the emitted text and how the run ended.  A run
   * that dies has emitted `PROGRAM_START` and the fragments before the bad
   * `]`, but not `PROGRAM_END`.
   */
  function Translate(arch: Arch, s: string): (string, Outcome)
  {
    var r := ScanFrom(arch, Start, s);
    if r.status.Pass? then (arch.programStart + r.out + arch.programEnd, Pass)
    else (arch.programStart + r.out, r.status)
  }

  /** A dead translator ignores the rest of the input. */
  lemma {:induction false} DeadStaysDead(arch: Arch, r: Scan, s: string)
    requires r.status.Fail?
    ensures ScanFrom(arch, r, s) == r
    decreases |s|
  {
    if s != [] {
      DeadStaysDead(arch, r, s[..|s| - 1]);
    }
  }

  /** Running over `a + b` is running over `a`, then over `b`. */
  lemma {:induction false} ScanAppend(arch: Arch, r: Scan, a: string, b: string)
    ensures ScanFrom(arch, r, a + b) == ScanFrom(arch, ScanFrom(arch, r, a), b)
    decreases |b|
  {
    if b == [] {
      assert a + b == a;
    } else {
      assert (a + b)[..|a + b| - 1] == a + b[..|b| - 1];
      ScanAppend(arch, r, a, b[..|b| - 1]);
    }
  }

  /** The instructions of a text, in order. */
  function Instructions(s: string): string
    decreases |s|
  {
    if s == [] then [] else Instructions(s[..|s| - 1]) + (if IsOpcode(s[|s| - 1]) then [s[|s| - 1]] else [])
  }

  /** Characters outside the eight instructions change nothing and emit nothing. */
  lemma {:induction false} OthersIgnored(arch: Arch, r: Scan, s: string)
    ensures ScanFrom(arch, r, s) == ScanFrom(arch, r, Instructions(s))
    decreases |s|
  {
    if s != [] {
      var s0, c := s[..|s| - 1], s[|s| - 1];
      OthersIgnored(arch, r, s0);
      var q := ScanFrom(arch, r, s0);
      var i := Instructions(s0);
      if IsOpcode(c) {
        assert Instructions(s) == i + [c];
        assert (i + [c])[..|i + [c]| - 1] == i;
      } else {
        assert Instructions(s) == i;
        assert c != '<' && c != '>' && c != '+' && c != '-' && c != '.' && c != ',' && c != '[' && c != ']';
        assert Fragment(arch, c) == "";
        assert q.out + "" == q.out;
        assert StepChar(arch, q, c) == q;
      }
    }
  }

  /**
   * The run survives exactly as long as no prefix closes more loops than
   * are open; while it does, the stack holds one label per open loop and
   * the counter has advanced once per `[`.
   */
  lemma {:induction false} ScanDepth(arch: Arch, r: Scan, t: string)
    requires r.status.Pass?
    ensures ScanFrom(arch, r, t).status.Pass? <==> StaysOpen(|r.labels|, t)
    ensures ScanFrom(arch, r, t).status.Pass? ==>
      |ScanFrom(arch, r, t).labels| == |r.labels| + Depth(t) && ScanFrom(arch, r, t).next == r.next + Opens(t)
    ensures ScanFrom(arch, r, t).status.Fail? ==> ScanFrom(arch, r, t).status == Fail(UnmatchedClose)
    decreases |t|
  {
    if t == [] {
      assert t[..0] == [];
    } else {
      var t0, c := t[..|t| - 1], t[|t| - 1];
      ScanDepth(arch, r, t0);
      StaysOpenSnoc(|r.labels|, t);
      var q := ScanFrom(arch, r, t0);
      if q.status.Fail? {
        DeadStaysDead(arch, q, [c]);
      }
    }
  }

  /** A stretch that never closes more loops than it opened leaves the labels open before it in place. */
  lemma {:induction false} ScanKeepsOuter(arch: Arch, r: Scan, t: string)
    requires r.status.Pass? && StaysOpen(0, t)
    ensures ScanFrom(arch, r, t).status.Pass?
    ensures |ScanFrom(arch, r, t).labels| >= |r.labels| && ScanFrom(arch, r, t).labels[..|r.labels|] == r.labels
    decreases |t|
  {
    ScanDepth(arch, r, t);
    assert StaysOpen(|r.labels|, t) by {
      forall k | 0 <= k <= |t| ensures |r.labels| + Depth(t[..k]) >= 0 { assert Depth(t[..k]) >= 0; }
    }
    if t == [] {
      assert r.labels[..|r.labels|] == r.labels;
    } else {
      var t0, c := t[..|t| - 1], t[|t| - 1];
      StaysOpenSnoc(0, t);
      ScanKeepsOuter(arch, r, t0);
      ScanDepth(arch, r, t0);
      var q := ScanFrom(arch, r, t0);
      if c == '[' {
        assert (q.labels + [q.next])[..|r.labels|] == q.labels[..|r.labels|];
      } else if c == ']' {
        assert Depth(t) == Depth(t0) - 1;
        assert q.labels[..|q.labels| - 1][..|r.labels|] == q.labels[..|r.labels|];
      }
    }
  }

  /** Staying open over `t` is staying open over all of `t` but the last character, and then once more. */
  lemma {:induction false} StaysOpenSnoc(d: int, t: string)
    requires t != []
    ensures StaysOpen(d, t) <==> StaysOpen(d, t[..|t| - 1]) && d + Depth(t) >= 0
  {
    var t0 := t[..|t| - 1];
    assert t[..|t|] == t;
    if StaysOpen(d, t) {
      forall k | 0 <= k <= |t0| ensures d + Depth(t0[..k]) >= 0 {
        assert t0[..k] == t[..k];
      }
    }
    if StaysOpen(d, t0) && d + Depth(t) >= 0 {
      forall k | 0 <= k <= |t| ensures d + Depth(t[..k]) >= 0 {
        if k < |t| {
          assert t0[..k] == t[..k];
        }
      }
    }
  }

  /** The number of `[` in a text. */
  function Opens(s: string): nat
    decreases |s|
  {
    if s == [] then 0 else Opens(s[..|s| - 1]) + (if s[|s| - 1] == '[' then 1 else 0)
  }

  /** Text once emitted stays emitted: the output only grows. */
  lemma {:induction false} OutGrows(arch: Arch, r: Scan, t: string)
    ensures |ScanFrom(arch, r, t).out| >= |r.out| && ScanFrom(arch, r, t).out[..|r.out|] == r.out
    decreases |t|
  {
    if t != [] {
      OutGrows(arch, r, t[..|t| - 1]);
      var q := ScanFrom(arch, r, t[..|t| - 1]);
      var n := StepChar(arch, q, t[|t| - 1]);
      assert n.out[..|q.out|] == q.out;
      assert n.out[..|r.out|] == q.out[..|r.out|];
    }
  }

  /**
   * Proper nesting: a `[`, a balanced stretch, and a `]` close the loop
   * under the label the `[` opened, and leave the open labels as they were.
   */
  lemma {:induction false} Pairing(arch: Arch, r: Scan, t: string)
    requires r.status.Pass? && Closed(t)
    ensures
      var begun := StepChar(arch, r, '[');
      var inner := ScanFrom(arch, begun, t);
      var done := ScanFrom(arch, r, "[" + t + "]");
      begun.out == r.out + BeginWhile(arch, r.next) &&
      |inner.out| >= |begun.out| && inner.out[..|begun.out|] == begun.out &&
      done == Scan(inner.out + EndWhile(arch, r.next), inner.next, r.labels, Pass)
  {
    var begun := StepChar(arch, r, '[');
    var inner := ScanFrom(arch, begun, t);
    ScanKeepsOuter(arch, begun, t);
    ScanDepth(arch, begun, t);
    OutGrows(arch, begun, t);
    assert inner.labels == begun.labels by {
      assert inner.labels == inner.labels[..|begun.labels|];
    }
    ScanAppend(arch, r, "[", t);
    ScanAppend(arch, r, "[" + t, "]");
    assert ScanFrom(arch, r, "[") == begun by { assert "["[..0] == []; }
    assert ScanFrom(arch, inner, "]") == StepChar(arch, inner, ']') by { assert "]"[..0] == []; }
    assert begun.labels[..|begun.labels| - 1] == r.labels;
  }

  /** The translation succeeds exactly on text in which no `]` closes more loops than are open. */
  lemma {:induction false} TranslateSpec(arch: Arch, s: string)
    ensures Translate(arch, s).1.Pass? <==> Wellbracketed(s)
    ensures Translate(arch, s).1.Fail? ==> Translate(arch, s).1 == Fail(UnmatchedClose)
    ensures Translate(arch, s).1.Pass? ==> |ScanFrom(arch, Start, s).labels| == Depth(s)
  {
    ScanDepth(arch, Start, s);
  }

  /** The output of a successful run is `PROGRAM_START`, the fragments, `PROGRAM_END`; of a failed one, no `PROGRAM_END`. */
  lemma {:induction false} Framing(arch: Arch, s: string)
    ensures var (out, o) := Translate(arch, s);
      |out| >= |arch.programStart| && out[..|arch.programStart|] == arch.programStart &&
      (o.Pass? ==> out == arch.programStart + ScanFrom(arch, Start, s).out + arch.programEnd &&
                   ScanFrom(arch, Start, s).out == ScanFrom(arch, Start, Instructions(s)).out)
  {
    OthersIgnored(arch, Start, s);
    var (out, o) := Translate(arch, s);
    assert out[..|arch.programStart|] == arch.programStart;
  }

  lemma {:induction false} AppendAssoc(a: string, b: string, c: string)
    ensures (a + b) + c == a + (b + c)
  {
  }

  /** `compile_for_arch`, with the source's loop, counter and label stack. */
  method CompileForArch(arch: Arch, s: string) returns (out: string, o: Outcome)
    ensures (out, o) == Translate(arch, s)
  {
    var counter: nat := 0;
    var labelStack: seq<nat> := [];
    ghost var body: string := "";
    out := arch.programStart;
    for i := 0 to |s|
      invariant ScanFrom(arch, Start, s[..i]) == Scan(body, counter, labelStack, Pass)
      invariant out == arch.programStart + body
    {
      assert s[..i + 1][..i] == s[..i];
      var c := s[i];
      var frag: string;
      if c == '[' {
        var l := counter;
        counter := counter + 1;
        labelStack := labelStack + [l];
        frag := BeginWhile(arch, l);
      } else if c == ']' {
        if labelStack == [] {
          assert s == s[..i + 1] + s[i + 1..];
          ScanAppend(arch, Start, s[..i + 1], s[i + 1..]);
          DeadStaysDead(arch, Scan(body, counter, labelStack, Fail(UnmatchedClose)), s[i + 1..]);
          return out, Fail(UnmatchedClose);
        }
        var l := labelStack[|labelStack| - 1];
        labelStack := labelStack[..|labelStack| - 1];
        frag := EndWhile(arch, l);
      } else {
        frag := Fragment(arch, c);
      }
      AppendAssoc(arch.programStart, body, frag);
      body := body + frag;
      out := out + frag;
    }
    assert s[..|s|] == s;
    out := out + arch.programEnd;
    o := Pass;
  }
}
