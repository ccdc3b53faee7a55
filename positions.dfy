/**
 * The pure part of the carousel: where `navigate` moves to, which element
 * jQuery's `.eq(pos)` picks, and the "active" flags `display` leaves behind.
 */
module Positions {
  import opened Wrappers

  /** The step `navigate` takes: -1 backwards, +1 forwards. */
  function Direction(backwards: bool): int
  {
    if backwards then -1 else 1
  }

  /**
   * The position `navigate` stores. Only overflow past the last item wraps
   * (to 0); nothing checks the lower bound, so stepping back from 0 gives -1.
   */
  function NextPosition(position: int, length: nat, backwards: bool): (r: int)
    ensures r == 0 || r == position + Direction(backwards)
    ensures r == 0 || r < length
  {
    var step := position + Direction(backwards);
    if step > length - 1 then 0 else step
  }

  /** The position after `k` navigations in the same direction. */
  function Walk(position: int, length: nat, backwards: bool, k: nat): int
  {
    if k == 0 then position else NextPosition(Walk(position, length, backwards, k - 1), length, backwards)
  }

  /** Forward navigation keeps a position inside [0, length) there. */
  lemma ForwardStaysInRange(position: int, length: nat)
    requires 0 <= position < length
    ensures 0 <= NextPosition(position, length, false) < length
    ensures NextPosition(position, length, false) == (position + 1) % length
  {
  }

  /**
   * With no items every forward step from 0 or -1 lands on 0; from further
   * below (reachable only by stepping back) it still just adds one.
   */
  lemma ForwardWithoutItems(position: int)
    ensures position >= -1 ==> NextPosition(position, 0, false) == 0
    ensures position < -1 ==> NextPosition(position, 0, false) == position + 1
  {
  }

  /** Stepping back from 0 stores -1, whatever the number of items. */
  lemma BackFromFirstIsMinusOne(length: nat)
    ensures NextPosition(0, length, true) == -1
  {
  }

  /**
   * Forward navigation from 0 visits 0, 1, ..., length-1 and starts over:
   * after k steps the position is k mod length.
   */
  lemma {:induction false} ForwardCycle(length: nat, k: nat)
    requires length >= 1
    ensures Walk(0, length, false, k) == k % length
  {
    if k > 0 {
      ForwardCycle(length, k - 1);
      var q, m := (k - 1) / length, (k - 1) % length;
      assert k == q * length + (m + 1);
      if m + 1 == length {
        ModUnique(k, q + 1, length, 0);
      } else {
        ModUnique(k, q, length, m + 1);
      }
    }
  }

  /** `length` forward steps from 0 come back to 0, and fewer never revisit it. */
  lemma FullForwardCycle(length: nat, k: nat)
    requires 1 <= length && k <= length
    ensures Walk(0, length, false, k) == 0 <==> k == 0 || k == length
  {
    ForwardCycle(length, k);
  }

  /** Euclidean remainder is unique: x = q * n + r with 0 <= r < n gives x % n == r. */
  lemma ModUnique(x: int, q: int, n: int, r: int)
    requires n >= 1 && 0 <= r < n && x == q * n + r
    ensures x % n == r
  {
    var q', r' := x / n, x % n;
    MulDistinct(q, q', n, r, r');
  }

  /** Two decompositions q * n + r == q' * n + r' with remainders in [0, n) agree. */
  lemma MulDistinct(q: int, q': int, n: int, r: int, r': int)
    requires n >= 1 && 0 <= r < n && 0 <= r' < n && q * n + r == q' * n + r'
    ensures r == r'
  {
    if q > q' {
      MulStep(q', q - q', n);
    } else if q < q' {
      MulStep(q, q' - q, n);
    }
  }

  /** (a + d) * n is at least a * n + n once d >= 1. */
  lemma MulStep(a: int, d: int, n: int)
    requires n >= 1 && d >= 1
    ensures (a + d) * n >= a * n + n
  {
    assert (a + d) * n == a * n + d * n;
  }

  /**
   * Backward navigation never wraps from a position at most `length`: each
   * step subtracts one, into the negative numbers.
   */
  lemma {:induction false} BackwardNeverWraps(position: int, length: nat, k: nat)
    requires position <= length
    ensures Walk(position, length, true, k) == position - k
  {
    if k > 0 {
      BackwardNeverWraps(position, length, k - 1);
    }
  }

  /**
   * jQuery's `.eq(index)` on a collection of `size` elements, taken as an
   * assumption about the library: a negative index counts from the end, and an
   * index outside [-size, size) selects nothing.
   */
  function EqIndex(index: int, size: nat): (r: Option<nat>)
    ensures r.Some? <==> 0 <= index + size && index < size
    ensures r.Some? ==> r.value < size && (r.value == index || r.value == index + size)
  {
    if 0 <= index < size then Some(index)
    else if index < 0 && 0 <= index + size then Some(index + size)
    else None
  }

  /** The "active" flags of `size` elements after all were cleared and `selected` (if any) was set. */
  function Activate(size: nat, selected: Option<nat>): seq<bool>
  {
    seq(size, i => selected == Some(i))
  }

  /** The number of set flags. */
  function CountActive(flags: seq<bool>): nat
  {
    if flags == [] then 0 else CountActive(flags[1..]) + (if flags[0] then 1 else 0)
  }

  /** A flag sequence with exactly one set flag has count one; with none, zero. */
  lemma {:induction false} CountSingle(flags: seq<bool>, k: int)
    requires forall i :: 0 <= i < |flags| ==> (flags[i] <==> i == k)
    ensures CountActive(flags) == if 0 <= k < |flags| then 1 else 0
  {
    if flags != [] {
      CountSingle(flags[1..], k - 1);
    }
  }

  /**
   * After `display(pos)` with 0 <= pos < size, exactly one flag is set, the
   * one at `pos`.
   */
  lemma ExactlyOneActive(size: nat, pos: int)
    requires 0 <= pos < size
    ensures var flags := Activate(size, EqIndex(pos, size));
      |flags| == size && CountActive(flags) == 1 &&
      forall i :: 0 <= i < size ==> (flags[i] <==> i == pos)
  {
    CountSingle(Activate(size, EqIndex(pos, size)), pos);
  }

  /**
   * A dot click leaves the stored position where it was, so the next forward
   * navigation shows the item after the stored position, not the one after
   * the clicked dot: when the two differ, so do the items shown.
   */
  lemma NextIgnoresClickedDot(length: nat, stored: int, clicked: int)
    requires 0 <= stored < length && 0 <= clicked < length && stored != clicked
    ensures Activate(length, EqIndex(NextPosition(stored, length, false), length))
         != Activate(length, EqIndex(NextPosition(clicked, length, false), length))
  {
    var a := NextPosition(stored, length, false);
    var b := NextPosition(clicked, length, false);
    ForwardStaysInRange(stored, length);
    ForwardStaysInRange(clicked, length);
    ExactlyOneActive(length, a);
    ExactlyOneActive(length, b);
    assert Activate(length, EqIndex(a, length))[a] != Activate(length, EqIndex(b, length))[a];
  }

  /**
   * `display` with a position jQuery cannot select (below -size or from size
   * on) leaves no flag set.
   */
  lemma NoneActiveOutside(size: nat, pos: int)
    requires pos + size < 0 || size <= pos
    ensures CountActive(Activate(size, EqIndex(pos, size))) == 0
  {
    CountSingle(Activate(size, EqIndex(pos, size)), -1);
  }

  /**
   * Stepping back from the first item: after k <= length steps the stored
   * position is -k and the element shown is length - k (jQuery counts from the
   * end); after length + 1 steps nothing is shown.
   */
  lemma BackwardFromFirst(length: nat, k: nat)
    ensures Walk(0, length, true, k) == -(k as int)
    ensures 1 <= k <= length ==> EqIndex(Walk(0, length, true, k), length) == Some(length - k)
    ensures k > length ==> EqIndex(Walk(0, length, true, k), length) == None
  {
    BackwardNeverWraps(0, length, k);
  }

  /** The flags of freshly matched items after `.eq(0).addClass('active')`. */
  function MarkFirst(flags: seq<bool>): seq<bool>
  {
    if flags == [] then [] else flags[0 := true]
  }

  /**
   * When no matched item was already active, initialisation leaves item 0 as
   * the only active item, the same flags the dots get.
   */
  lemma FirstOnlyActive(flags: seq<bool>)
    requires forall i :: 0 <= i < |flags| ==> !flags[i]
    ensures MarkFirst(flags) == Activate(|flags|, Some(0))
    ensures CountActive(MarkFirst(flags)) == if flags == [] then 0 else 1
  {
    CountSingle(MarkFirst(flags), 0);
  }
}
