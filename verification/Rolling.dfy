/**
 Rolling statistics over the latest samples: a ring buffer with a running total, and the
 smallest and largest value ever offered. Totals are int64 and wrap around.
 */
module Rolling {

  const TWO_64 := 0x1_0000_0000_0000_0000
  const TWO_63 := 0x8000_0000_0000_0000
  const MAX_INT64 := TWO_63 - 1

  /** The int64 that an addition leaves: the result modulo 2^64, in the range of int64. */
  function Wrap(n: int): (w: int)
    ensures -TWO_63 <= w < TWO_63
    ensures -TWO_63 <= n < TWO_63 ==> w == n
  {
    (n + TWO_63) % TWO_64 - TWO_63
  }

  lemma WrapAdd(a: int, b: int)
    ensures Wrap(Wrap(a) + b) == Wrap(a + b)
  {
    var q := (a + TWO_63) / TWO_64;
    assert Wrap(a) == a - q * TWO_64;
  }

  function Sum(s: seq<int>): int {
    if s == [] then 0 else Sum(s[..|s| - 1]) + s[|s| - 1]
  }

  lemma {:induction false} SumConcat(a: seq<int>, b: seq<int>)
    ensures Sum(a + b) == Sum(a) + Sum(b)
  {
    if b == [] {
      assert a + b == a;
    } else {
      assert (a + b)[..|a + b| - 1] == a + b[..|b| - 1];
      SumConcat(a, b[..|b| - 1]);
    }
  }

  /** The last `n` elements, or all there are. */
  function Last(s: seq<int>, n: nat): seq<int> { if |s| <= n then s else s[|s| - n..] }

  lemma LastSnoc(s: seq<int>, n: nat, x: int)
    requires n > 0
    ensures Last(s + [x], n) == if |s| < n then s + [x] else Last(s, n)[1..] + [x]
  {
  }

  lemma SlideSum(w: seq<int>, x: int)
    requires w != []
    ensures Sum(w[1..] + [x]) == Sum(w) - w[0] + x
  {
    assert w == [w[0]] + w[1..];
    SumConcat([w[0]], w[1..]);
    assert [w[0]][..0] == [];
    SumConcat(w[1..], [x]);
    assert [x][..0] == [];
  }

  lemma {:induction false} SumBounds(s: seq<int>, lo: int, hi: int)
    requires Within(s, lo, hi)
    ensures |s| * lo <= Sum(s) <= |s| * hi
  {
    if s != [] {
      SumBounds(s[..|s| - 1], lo, hi);
      assert |s| * lo == (|s| - 1) * lo + lo && |s| * hi == (|s| - 1) * hi + hi;
    }
  }

  /** A ring of samples that holds the latest of `offered`, the oldest at `index` when it is full. */
  ghost predicate RingOk(ring: seq<int>, index: nat, length: nat, offered: seq<int>) {
    && index < |ring| && length <= |ring|
    && (length < |ring| ==>
          && index == length == |offered| && ring[..length] == offered
          && forall k :: length <= k < |ring| ==> ring[k] == 0)
    && (length == |ring| ==> |offered| >= length && ring[index..] + ring[..index] == Last(offered, length))
  }

  lemma FillStep(ring: seq<int>, length: nat, offered: seq<int>, x: int)
    requires RingOk(ring, length, length, offered) && length < |ring|
    ensures
      var index' := if length + 1 == |ring| then 0 else length + 1;
      RingOk(ring[length := x], index', length + 1, offered + [x])
    ensures Sum(Last(offered + [x], |ring|)) == Sum(Last(offered, |ring|)) - ring[length] + x
  {
    var ring' := ring[length := x];
    assert ring'[..length + 1] == offered + [x];
    if length + 1 == |ring| {
      assert ring'[0..] + ring'[..0] == offered + [x];
    }
    SumConcat(offered, [x]);
    assert [x][..0] == [];
  }

  lemma SlideStep(ring: seq<int>, index: nat, offered: seq<int>, x: int)
    requires RingOk(ring, index, |ring|, offered)
    ensures
      var index' := if index + 1 == |ring| then 0 else index + 1;
      RingOk(ring[index := x], index', |ring|, offered + [x])
    ensures Sum(Last(offered + [x], |ring|)) == Sum(Last(offered, |ring|)) - ring[index] + x
  {
    var n, ring' := |ring|, ring[index := x];
    var window := Last(offered, n);
    var index' := if index + 1 == n then 0 else index + 1;
    LastSnoc(offered, n, x);
    assert window[0] == (ring[index..] + ring[..index])[0] == ring[index];
    SlideSum(window, x);
    assert window[1..] == ring[index + 1..] + ring[..index];
    assert ring'[index'..] + ring'[..index'] == ring[index + 1..] + ring[..index] + [x];
  }

  ghost predicate Positive(s: seq<int>) { forall i :: 0 <= i < |s| ==> 0 < s[i] }

  lemma PositiveSnoc(s: seq<int>, x: int)
    requires Positive(s) && x > 0
    ensures Positive(s + [x])
  {
  }

  /** Writing a sample at the index, whether the ring is still filling or slides. */
  lemma RingStep(ring: seq<int>, index: nat, length: nat, offered: seq<int>, x: int)
    requires RingOk(ring, index, length, offered)
    ensures
      var length' := if length < |ring| then length + 1 else length;
      var index' := if index + 1 == |ring| then 0 else index + 1;
      RingOk(ring[index := x], index', length', offered + [x])
    ensures Sum(Last(offered + [x], |ring|)) == Sum(Last(offered, |ring|)) - ring[index] + x
  {
    if length < |ring| {
      FillStep(ring, length, offered, x);
    } else {
      SlideStep(ring, index, offered, x);
    }
  }

  /** Taking one sample from a wrapped total and adding another. */
  lemma WrapReplaces(sum: int, out: int, x: int)
    ensures Wrap(Wrap(Wrap(sum) - out) + x) == Wrap(sum - out + x)
  {
    WrapAdd(sum, -out);
    WrapAdd(sum - out, x);
  }

  datatype Window = Window(ring: seq<int>, index: nat, length: nat, offered: seq<int>, total: int)

  /** The ring holds the window of what was offered, and the total is the window's sum as an int64. */
  ghost predicate WindowOk(w: Window) {
    && RingOk(w.ring, w.index, w.length, w.offered) && Positive(w.offered)
    && w.total == Wrap(Sum(Last(w.offered, |w.ring|)))
  }

  ghost function Pushed(w: Window, x: int): Window
    requires w.index < |w.ring|
  {
    Window(w.ring[w.index := x],
           if w.index + 1 == |w.ring| then 0 else w.index + 1,
           if w.length < |w.ring| then w.length + 1 else w.length,
           w.offered + [x],
           Wrap(Wrap(w.total - w.ring[w.index]) + x))
  }

  lemma PushKeeps(w: Window, x: int)
    requires WindowOk(w) && x > 0
    ensures WindowOk(Pushed(w, x))
  {
    RingStep(w.ring, w.index, w.length, w.offered, x);
    PositiveSnoc(w.offered, x);
    PushedTotal(w, x, Sum(Last(w.offered, |w.ring|)));
  }

  lemma PushedTotal(w: Window, x: int, sum: int)
    requires w.index < |w.ring| && w.total == Wrap(sum)
    ensures Pushed(w, x).total == Wrap(sum - w.ring[w.index] + x)
  {
    WrapReplaces(sum, w.ring[w.index], x);
  }

  class RollingAverage {
    const samples: array<int>
    var total: int
    var index: nat
    var length: nat
    /** The positive values offered so far, and what the array holds. */
    ghost var offered: seq<int>
    ghost var ring: seq<int>

    ghost function State(): Window
      reads this
    {
      Window(ring, index, length, offered, total)
    }

    ghost predicate Valid()
      reads this, samples
    {
      samples[..] == ring && WindowOk(State())
    }

    constructor (capacity: nat)
      requires capacity > 0
      ensures Valid() && offered == [] && samples.Length == capacity && fresh(samples)
    {
      samples := new int[capacity](_ => 0);
      total, index, length, offered := 0, 0, 0, [];
      new;
      ring := samples[..];
    }

    /** Puts a value in the place of the sample at `index` and moves on. */
    method Replace(x: int)
      requires index < samples.Length
      modifies this`total, this`index, samples
      ensures samples[..] == old(samples[..])[old(index) := x]
      ensures total == Wrap(Wrap(old(total) - old(samples[index])) + x)
      ensures index == if old(index) + 1 == samples.Length then 0 else old(index) + 1
    {
      total := Wrap(total - samples[index]);
      samples[index] := x;
      total := Wrap(total + x);
      index := index + 1;
      if index >= samples.Length {
        index := 0;
      }
    }

    /** Values that are not positive are ignored; others push out the oldest sample when full. */
    method Add(x: int)
      requires Valid() && x <= MAX_INT64
      modifies this, samples
      ensures Valid() && offered == if x <= 0 then old(offered) else old(offered) + [x]
    {
      if x > 0 {
        PushKeeps(State(), x);
        Push(x);
      }
    }

    method Push(x: int)
      requires index < samples.Length && samples[..] == ring
      modifies this, samples
      ensures samples[..] == ring && State() == Pushed(old(State()), x)
    {
      if length < samples.Length {
        length := length + 1;
      }
      offered, ring := offered + [x], ring[index := x];
      Replace(x);
    }

    /** Computed over the reals. */
    function Average(): real
      reads this
    {
      var size := if samples.Length <= length then samples.Length else length;
      total as real / (if size <= 1 then 1 else size) as real
    }

    /** The length is the number of samples in the window, and the total their sum if it fits. */
    lemma TotalIsWindowSum()
      requires Valid()
      ensures length == |Last(offered, samples.Length)|
      ensures Sum(Last(offered, samples.Length)) <= MAX_INT64 ==> total == Sum(Last(offered, samples.Length))
    {
      var window := Last(offered, samples.Length);
      SumPositive(window);
    }
  }

  lemma {:induction false} SumPositive(s: seq<int>)
    requires Positive(s)
    ensures Sum(s) >= 0
  {
    if s != [] {
      SumPositive(s[..|s| - 1]);
    }
  }

  ghost predicate Within(s: seq<int>, lo: int, hi: int) {
    forall i :: 0 <= i < |s| ==> lo <= s[i] <= hi
  }

  /** The least of the inputs, or the initial value if that is less. */
  ghost predicate LeastOf(m: int, initial: int, inputs: seq<int>) {
    && m <= initial && (forall i :: 0 <= i < |inputs| ==> m <= inputs[i])
    && (m == initial || m in inputs)
  }

  ghost predicate GreatestOf(m: int, initial: int, inputs: seq<int>) {
    && m >= initial && (forall i :: 0 <= i < |inputs| ==> m >= inputs[i])
    && (m == initial || m in inputs)
  }

  lemma ExtremesSnoc(lo: int, hi: int, first: int, second: int, inputs: seq<int>, x: int)
    requires LeastOf(lo, first, inputs) && GreatestOf(hi, second, inputs)
    ensures LeastOf(if lo <= x then lo else x, first, inputs + [x])
    ensures GreatestOf(if hi >= x then hi else x, second, inputs + [x])
  {
    assert (inputs + [x])[|inputs|] == x;
  }

  function PositiveOf(inputs: seq<int>): seq<int> {
    if inputs == [] then []
    else PositiveOf(inputs[..|inputs| - 1]) + (if inputs[|inputs| - 1] > 0 then [inputs[|inputs| - 1]] else [])
  }

  lemma PositiveOfSnoc(inputs: seq<int>, x: int)
    ensures PositiveOf(inputs + [x]) == PositiveOf(inputs) + if x > 0 then [x] else []
  {
    assert (inputs + [x])[..|inputs|] == inputs;
  }

  lemma {:induction false} PositiveOfMembers(inputs: seq<int>)
    ensures forall x :: x in PositiveOf(inputs) ==> x in inputs
  {
    if inputs != [] {
      PositiveOfMembers(inputs[..|inputs| - 1]);
      assert inputs == inputs[..|inputs| - 1] + [inputs[|inputs| - 1]];
    }
  }

  class RollingMinMax {
    const average: RollingAverage
    var min: int
    var max: int
    /** Everything that was ever added. */
    ghost var inputs: seq<int>

    /** `min` and `max` are the extremes of all inputs and their initial values; the average takes the positive ones. */
    ghost predicate Valid()
      reads this, average, average.samples
    {
      && average.Valid() && average.offered == PositiveOf(inputs)
      && LeastOf(min, MAX_INT64, inputs) && GreatestOf(max, 0, inputs)
    }

    constructor (capacity: nat)
      requires capacity > 0
      ensures Valid() && inputs == [] && fresh(average) && fresh(average.samples)
    {
      average := new RollingAverage(capacity);
      min, max, inputs := MAX_INT64, 0, [];
    }

    method Widen(x: int)
      requires LeastOf(min, MAX_INT64, inputs) && GreatestOf(max, 0, inputs)
      modifies this
      ensures LeastOf(min, MAX_INT64, inputs) && GreatestOf(max, 0, inputs)
      ensures inputs == old(inputs) + [x]
      ensures PositiveOf(inputs) == PositiveOf(old(inputs)) + if x > 0 then [x] else []
    {
      ExtremesSnoc(min, max, MAX_INT64, 0, inputs, x);
      PositiveOfSnoc(inputs, x);
      min := if min <= x then min else x;
      max := if max >= x then max else x;
      inputs := inputs + [x];
    }

    method Add(x: int)
      requires Valid() && -TWO_63 <= x <= MAX_INT64
      modifies this, average, average.samples
      ensures Valid() && inputs == old(inputs) + [x]
    {
      Widen(x);
      average.Add(x);
      assert x <= 0 ==> PositiveOf(old(inputs)) + [] == PositiveOf(old(inputs));
    }

    /** Once a positive value was offered, the average lies between the two, unless the total overflowed. */
    lemma AverageBetween()
      requires Valid() && average.offered != []
      requires Sum(Last(average.offered, average.samples.Length)) <= MAX_INT64
      ensures min as real <= average.Average() <= max as real
    {
      var window := Last(average.offered, average.samples.Length);
      PositiveOfMembers(inputs);
      assert Within(average.offered, min, max) by {
        forall i | 0 <= i < |average.offered|
          ensures min <= average.offered[i] <= max
        {
          assert average.offered[i] in inputs;
        }
      }
      average.TotalIsWindowSum();
      SumBounds(window, min, max);
      DivBounds(average.total, |window|, min, max);
    }
  }

  lemma DivBounds(total: int, n: nat, lo: int, hi: int)
    requires n > 0 && n * lo <= total <= n * hi
    ensures lo as real <= total as real / n as real <= hi as real
  {
    assert (n * lo) as real == n as real * lo as real && (n * hi) as real == n as real * hi as real;
    QuotientAtLeast(total as real, n as real, lo as real);
    QuotientAtMost(total as real, n as real, hi as real);
  }

  lemma QuotientAtLeast(t: real, n: real, x: real)
    requires n > 0.0 && n * x <= t
    ensures x <= t / n
  {
    assert t == n * (t / n);
  }

  lemma QuotientAtMost(t: real, n: real, x: real)
    requires n > 0.0 && t <= n * x
    ensures t / n <= x
  {
    assert t == n * (t / n);
  }
}
