/**
 * The stack-cell allocator of the compiler: a set of occupied frame offsets
 * from which a new local always takes the least free natural number.
 */
module Allocator {
  import opened Wrappers
  import opened PatternMatch

  /** `i` is the least natural number not in `s`. */
  ghost predicate IsLeastFree(s: set<int>, i: int)
  {
    0 <= i && i !in s && forall j :: 0 <= j < i ==> j in s
  }

  /** The tagged pair the allocator hands out: `('stack_address', i)`. */
  function AddressOf(i: int): Value
  {
    Seq([Str("stack_address"), Int(i)])
  }

  /** The pattern `free_local` matches against. */
  function FreePattern(): Pattern
  {
    PSeq([PStr("stack_address"), Star("i")])
  }

  ghost predicate StrictlyIncreasing(r: seq<int>)
  {
    forall i, j :: 0 <= i < j < |r| ==> r[i] < r[j]
  }

  /** A set that holds 0, 1, ..., n-1 has at least n elements. */
  lemma {:induction false} PrefixCardinality(s: set<int>, n: nat)
    requires forall j :: 0 <= j < n ==> j in s
    ensures |s| >= n
    decreases n
  {
    if n > 0 {
      PrefixCardinality(s - {n - 1}, n - 1);
    }
  }

  function LeastFreeFrom(s: set<int>, k: nat): (i: nat)
    requires forall j :: 0 <= j < k ==> j in s
    ensures IsLeastFree(s, i)
    decreases |s| - k
  {
    if k in s then
      PrefixCardinality(s, k + 1);
      LeastFreeFrom(s, k + 1)
    else k
  }

  /** The least natural number not in `s`: the offset the next allocation takes. */
  function LeastFree(s: set<int>): (i: nat)
    ensures IsLeastFree(s, i)
  {
    LeastFreeFrom(s, 0)
  }

  lemma {:induction false} LeastFreeUnique(s: set<int>, i: int, j: int)
    requires IsLeastFree(s, i) && IsLeastFree(s, j)
    ensures i == j
  {
  }

  lemma {:induction false} HasElement(s: set<int>)
    requires s != {}
    ensures exists x :: x in s
  {
    if forall z :: z !in s {
      assert false;
    }
  }

  /** The least element of a non-empty set. */
  ghost function MinOf(s: set<int>): (m: int)
    requires s != {}
    ensures m in s && forall y :: y in s ==> m <= y
    decreases |s|
  {
    HasElement(s);
    var x :| x in s;
    assert forall y :: y in s ==> y == x || y in s - {x};
    if s - {x} == {} then x
    else
      var m := MinOf(s - {x});
      if x < m then x else m
  }

  /** The elements of a finite set in ascending order. */
  ghost function SortedOf(s: set<int>): seq<int>
    decreases |s|
  {
    if s == {} then [] else [MinOf(s)] + SortedOf(s - {MinOf(s)})
  }

  lemma {:induction false} SortedOfElements(s: set<int>)
    ensures forall x :: x in SortedOf(s) <==> x in s
    ensures |SortedOf(s)| == |s|
    decreases |s|
  {
    if s != {} {
      var x := MinOf(s);
      SortedOfElements(s - {x});
      assert SortedOf(s) == [x] + SortedOf(s - {x});
    }
  }

  /** `SortedOf` lists the elements of the set in strictly increasing order. */
  lemma {:induction false} SortedOfIncreasing(s: set<int>)
    ensures StrictlyIncreasing(SortedOf(s))
    decreases |s|
  {
    if s != {} {
      var x := MinOf(s);
      SortedOfIncreasing(s - {x});
      SortedOfHead(s);
      IncreasingCons(x, SortedOf(s - {x}));
    }
  }

  /** The least element comes first, and everything after it is larger. */
  lemma {:induction false} SortedOfHead(s: set<int>)
    requires s != {}
    ensures SortedOf(s) == [MinOf(s)] + SortedOf(s - {MinOf(s)})
    ensures forall y :: y in SortedOf(s - {MinOf(s)}) ==> MinOf(s) < y
  {
    SortedOfElements(s - {MinOf(s)});
  }

  /** A strictly increasing list stays so with a smaller element in front. */
  lemma {:induction false} IncreasingCons(x: int, rest: seq<int>)
    requires StrictlyIncreasing(rest) && forall y :: y in rest ==> x < y
    ensures StrictlyIncreasing([x] + rest)
  {
    var r := [x] + rest;
    forall i, j | 0 <= i < j < |r| ensures r[i] < r[j] {
      assert r[j] == rest[j - 1] && rest[j - 1] in rest;
      if i > 0 {
        assert r[i] == rest[i - 1];
      }
    }
  }

  /** Removing a free offset just added gives back the original set. */
  lemma {:induction false} AddRemoveFresh(s: set<int>, i: int)
    requires IsLeastFree(s, i)
    ensures (s + {i}) - {i} == s
  {
  }

  class StackMan {
    var cells: set<int>

    constructor ()
      ensures cells == {}
    {
      cells := {};
    }

    /** `next_free_cell`: count up from 0 past the occupied offsets. */
    method NextFreeCell() returns (i: int)
      ensures IsLeastFree(cells, i)
      ensures i == LeastFree(cells)
    {
      i := 0;
      while i in cells
        invariant 0 <= i
        invariant forall j :: 0 <= j < i ==> j in cells
        decreases |cells| - i
      {
        PrefixCardinality(cells, i + 1);
        i := i + 1;
      }
      LeastFreeUnique(cells, i, LeastFree(cells));
    }

    /** `allocate_local`: occupy the least free offset and return its address. */
    method AllocateLocal() returns (r: Value)
      modifies this
      ensures r == AddressOf(LeastFree(old(cells)))
      ensures cells == old(cells) + {LeastFree(old(cells))}
    {
      var i := NextFreeCell();
      cells := cells + {i};
      r := AddressOf(i);
    }

    /**
     * `free_local`: the argument must have the shape `('stack_address', i)` and
     * `i` must be occupied; exactly that offset is released.
     */
    method FreeLocal(local: Value) returns (o: Outcome)
      modifies this
      ensures match AttemptMatch(FreePattern(), local)
        case None => o == Fail(Malformed) && cells == old(cells)
        case Some(m) =>
          if "i" in m && m["i"].Int? && m["i"].i in old(cells)
          then o == Pass && cells == old(cells) - {m["i"].i}
          else o == Fail(DoubleFree) && cells == old(cells)
    {
      match AttemptMatch(FreePattern(), local)
      case None =>
        o := Fail(Malformed);
      case Some(m) =>
        if "i" in m && m["i"].Int? && m["i"].i in cells {
          cells := cells - {m["i"].i};
          o := Pass;
        } else {
          o := Fail(DoubleFree);
        }
    }

    /**
     * A scratch cell taken and given back, as the built-ins do: `free_local`
     * of the address `allocate_local` returned succeeds and leaves exactly
     * the offsets occupied before.
     */
    method AllocateThenFree() returns (o: Outcome)
      modifies this
      ensures o == Pass && cells == old(cells)
    {
      ghost var i := LeastFree(cells);
      var r := AllocateLocal();
      FreeAddressOf(i);
      o := FreeLocal(r);
      AddRemoveFresh(old(cells), i);
    }

    /** `allocated_cells`: the occupied offsets in ascending order. */
    method AllocatedCells() returns (r: seq<int>)
      ensures r == SortedOf(cells)
      ensures StrictlyIncreasing(r) && forall x :: x in r <==> x in cells
    {
      var rest := cells;
      r := [];
      while rest != {}
        invariant rest <= cells
        invariant r + SortedOf(rest) == SortedOf(cells)
        decreases |rest|
      {
        ghost var least := MinOf(rest);
        var x :| x in rest && forall y :: y in rest ==> x <= y;
        assert x == least;
        SortedOfElements(rest);
        assert SortedOf(rest) == [x] + SortedOf(rest - {x});
        assert r + SortedOf(rest) == (r + [x]) + SortedOf(rest - {x});
        r := r + [x];
        rest := rest - {x};
      }
      assert SortedOf(rest) == [];
      assert r + [] == r;
      SortedOfIncreasing(cells);
      SortedOfElements(cells);
    }
  }

  /** A freed address is the one the allocator made: freeing `AddressOf(i)` names offset `i`. */
  lemma {:induction false} FreeAddressOf(i: int)
    ensures AttemptMatch(FreePattern(), AddressOf(i)) == Some(map["i" := Int(i)])
  {
    MatchPair(PStr("stack_address"), Star("i"), Str("stack_address"), Int(i));
    assert [] + [("i", Int(i))] == [("i", Int(i))];
    LeafPatterns("i", "stack_address", Int(i));
  }
}
