/** ImVector: a sequence in a buffer that grows by half, and what growing costs in all. */
module Vector {

  // ----- What the operations cost

  /** Besides size and capacity: the elements that reserve has copied, and the largest size, since the
      vector was last cleared. */
  datatype Cost = Cost(size: nat, capacity: nat, copied: nat, peak: nat)

  datatype Op = Push | Pop | ResizeTo(n: nat) | Insert | Erase | ReserveTo(n: nat) | Clear

  /** _grow_capacity */
  function Grow(capacity: nat, newSize: nat): nat {
    var newCapacity := if capacity != 0 then capacity + capacity / 2 else 8;
    if newCapacity > newSize then newCapacity else newSize
  }

  function Reserved(c: Cost, newCapacity: nat): Cost {
    if newCapacity <= c.capacity then c else c.(capacity := newCapacity, copied := c.copied + c.size)
  }

  function Sized(c: Cost, size: nat): Cost {
    c.(size := size, peak := if size > c.peak then size else c.peak)
  }

  predicate Allowed(c: Cost, op: Op) {
    op.Pop? || op.Erase? ==> c.size > 0
  }

  function Step(c: Cost, op: Op): Cost
    requires Allowed(c, op)
  {
    match op
    case Push => Sized(if c.size == c.capacity then Reserved(c, Grow(c.capacity, c.size + 1)) else c, c.size + 1)
    case Pop => Sized(c, c.size - 1)
    case ResizeTo(n) => Sized(if n > c.capacity then Reserved(c, Grow(c.capacity, n)) else c, n)
    case Insert =>
      Sized(if c.size == c.capacity then Reserved(c, if c.capacity != 0 then c.capacity * 2 else 4) else c, c.size + 1)
    case Erase => Sized(c, c.size - 1)
    case ReserveTo(n) => Reserved(c, n)
    case Clear => NOTHING
  }

  const NOTHING := Cost(0, 0, 0, 0)

  predicate AllAllowed(ops: seq<Op>) {
    ops == [] || (AllAllowed(ops[..|ops| - 1]) && Allowed(After(ops[..|ops| - 1]), ops[|ops| - 1]))
  }

  function After(ops: seq<Op>): Cost {
    if ops == [] then NOTHING
    else
      var before := After(ops[..|ops| - 1]);
      if Allowed(before, ops[|ops| - 1]) then Step(before, ops[|ops| - 1]) else before
  }

  /** Copies are paid for by the capacity. */
  predicate Paid(c: Cost) {
    c.size <= c.capacity && c.size <= c.peak && c.copied <= 3 * c.capacity
  }

  /** The capacity stays in proportion to what was needed, or asked for. */
  predicate Proportionate(c: Cost, asked: nat) {
    c.capacity <= 8 || c.capacity <= 2 * c.peak || c.capacity <= asked
  }

  /** A reserve asks for nothing new, or for half as much again at least. */
  predicate Generous(c: Cost, op: Op) {
    op.ReserveTo? ==> op.n <= c.capacity || op.n >= c.capacity + c.capacity / 2
  }

  /** A reserve is paid for by what it asks for. */
  predicate Affordable(c: Cost, op: Op) {
    op.ReserveTo? && op.n > c.capacity ==> c.copied + c.size <= 3 * op.n
  }

  lemma GenerousIsAffordable(c: Cost, op: Op)
    requires Paid(c) && Generous(c, op)
    ensures Affordable(c, op)
  {}

  /** One call keeps the bound if and only if it is no reserve beyond its means: all growth of the vector's own is
      within them. */
  lemma StepPaidIff(c: Cost, op: Op)
    requires Paid(c) && Allowed(c, op)
    ensures Paid(Step(c, op)) <==> Affordable(c, op)
  {}

  /** The largest capacity that the run's reserves ask for. */
  function Asked(ops: seq<Op>): nat {
    if ops == [] then 0
    else
      var before, op := Asked(ops[..|ops| - 1]), ops[|ops| - 1];
      if op.ReserveTo? && op.n > before then op.n else before
  }

  lemma StepProportionate(c: Cost, op: Op, asked: nat, now: nat)
    requires Paid(c) && Proportionate(c, asked) && Allowed(c, op)
    requires now >= asked && (op.ReserveTo? ==> now >= op.n)
    ensures Proportionate(Step(c, op), now)
  {}

  ghost predicate PaidThroughout(ops: seq<Op>) {
    Paid(After(ops)) && (ops == [] || PaidThroughout(ops[..|ops| - 1]))
  }

  ghost predicate AllAffordable(ops: seq<Op>) {
    ops == [] || (AllAffordable(ops[..|ops| - 1]) && Affordable(After(ops[..|ops| - 1]), ops[|ops| - 1]))
  }

  ghost predicate AllGenerous(ops: seq<Op>) {
    ops == [] || (AllGenerous(ops[..|ops| - 1]) && Generous(After(ops[..|ops| - 1]), ops[|ops| - 1]))
  }

  /** A run keeps within three copies for each element of capacity throughout, if and only if all its reserves are
      affordable when they are made. */
  lemma {:induction false} RunPaidIff(ops: seq<Op>)
    requires AllAllowed(ops)
    ensures PaidThroughout(ops) <==> AllAffordable(ops)
    decreases |ops|
  {
    if ops != [] {
      var front := ops[..|ops| - 1];
      RunPaidIff(front);
      if PaidThroughout(front) {
        StepPaidIff(After(front), ops[|ops| - 1]);
      }
    }
  }

  /** In every run whose own reserves, if any, are generous, fewer elements are copied than three times the capacity;
      hence at most 24, or six for every element of the largest size reached, or three for every element of
      the largest capacity asked for. */
  lemma {:induction false} RunAmortised(ops: seq<Op>)
    requires AllAllowed(ops) && AllGenerous(ops)
    ensures Paid(After(ops)) && Proportionate(After(ops), Asked(ops))
    ensures After(ops).copied <= 24 || After(ops).copied <= 6 * After(ops).peak || After(ops).copied <= 3 * Asked(ops)
    decreases |ops|
  {
    if ops != [] {
      var front, op := ops[..|ops| - 1], ops[|ops| - 1];
      RunAmortised(front);
      GenerousIsAffordable(After(front), op);
      StepPaidIff(After(front), op);
      StepProportionate(After(front), op, Asked(front), Asked(ops));
    }
  }

  /** Reserving one element ahead of every push, n times. */
  function ReserveAndPush(n: nat): (ops: seq<Op>)
    ensures |ops| == 2 * n
  {
    if n == 0 then [] else ReserveAndPush(n - 1) + [ReserveTo(n), Push]
  }

  /** A caller who reserves exactly what is missing each time loses the amortisation: n pushes copy
      n(n-1)/2 elements. */
  lemma {:induction false} TightReservesAreQuadratic(n: nat)
    ensures AllAllowed(ReserveAndPush(n))
    ensures var c := After(ReserveAndPush(n)); c.size == c.capacity == c.peak == n && 2 * c.copied == n * (n - 1)
  {
    hide After, AllAllowed;
    if n == 0 {
      AfterNothing();
    } else {
      TightReservesAreQuadratic(n - 1);
      var before := ReserveAndPush(n - 1);
      AfterSnoc(before, ReserveTo(n));
      AfterSnoc(before + [ReserveTo(n)], Push);
      assert ReserveAndPush(n) == (before + [ReserveTo(n)]) + [Push];
      assert n * (n - 1) == (n - 1) * (n - 2) + 2 * (n - 1);
    }
  }

  lemma AfterNothing()
    ensures AllAllowed([]) && After([]) == NOTHING
  {}

  lemma AfterSnoc(ops: seq<Op>, op: Op)
    requires AllAllowed(ops) && Allowed(After(ops), op)
    ensures AllAllowed(ops + [op]) && After(ops + [op]) == Step(After(ops), op)
  {
    assert (ops + [op])[..|ops|] == ops;
  }

  // ----- The capacities

  /** n times the same call. */
  function Repeat(op: Op, n: nat): (ops: seq<Op>)
    ensures |ops| == n
  {
    if n == 0 then [] else Repeat(op, n - 1) + [op]
  }

  /** Half as much again, from 8 on: 8, 12, 18, 27, 40, ... */
  function ByHalf(k: nat): (c: nat)
    ensures c >= 8
  {
    if k == 0 then 8 else ByHalf(k - 1) * 3 / 2
  }

  /** As much again, from 4 on: 4, 8, 16, 32, ... */
  function ByWhole(k: nat): (c: nat)
    ensures c >= 4
  {
    if k == 0 then 4 else ByWhole(k - 1) * 2
  }

  /** The sum of the first k capacities. */
  function SumOf(series: nat -> nat, k: nat): nat {
    if k == 0 then 0 else SumOf(series, k - 1) + series(k - 1)
  }

  /** With n > 0 elements: the capacity is the first of the series that is not less than n, and all that were full
      before it have been copied once. */
  ghost predicate InSeries(c: Cost, n: nat, series: nat -> nat, k: nat) {
    && c.size == n && c.capacity == series(k) && n <= series(k) && (k > 0 ==> series(k - 1) < n)
    && c.copied == SumOf(series, k)
  }

  function Halves(): nat -> nat {
    (k: nat) => ByHalf(k)
  }

  function Wholes(): nat -> nat {
    (k: nat) => ByWhole(k)
  }

  lemma PushInSeries(c: Cost, n: nat, k: nat)
    requires InSeries(c, n, Halves(), k) && n > 0
    ensures InSeries(Step(c, Push), n + 1, Halves(), if n == c.capacity then k + 1 else k)
  {}

  lemma InsertInSeries(c: Cost, n: nat, k: nat)
    requires InSeries(c, n, Wholes(), k) && n > 0
    ensures InSeries(Step(c, Insert), n + 1, Wholes(), if n == c.capacity then k + 1 else k)
  {}

  /** What n > 0 pushes make of an empty vector, and what n > 0 insertions do. */
  lemma {:induction false} RepeatedGrowth(n: nat) returns (j: nat, k: nat)
    requires n > 0
    ensures AllAllowed(Repeat(Push, n)) && InSeries(After(Repeat(Push, n)), n, Halves(), j)
    ensures AllAllowed(Repeat(Insert, n)) && InSeries(After(Repeat(Insert, n)), n, Wholes(), k)
  {
    hide InSeries, After, AllAllowed;
    if n == 1 {
      j, k := 0, 0;
      FirstGrowth();
    } else {
      j, k := RepeatedGrowth(n - 1);
      var (c, d) := (After(Repeat(Push, n - 1)), After(Repeat(Insert, n - 1)));
      AfterSnoc(Repeat(Push, n - 1), Push);
      AfterSnoc(Repeat(Insert, n - 1), Insert);
      PushInSeries(c, n - 1, j);
      InsertInSeries(d, n - 1, k);
      j := if n - 1 == c.capacity then j + 1 else j;
      k := if n - 1 == d.capacity then k + 1 else k;
    }
  }

  lemma FirstGrowth()
    ensures AllAllowed(Repeat(Push, 1)) && InSeries(After(Repeat(Push, 1)), 1, Halves(), 0)
    ensures AllAllowed(Repeat(Insert, 1)) && InSeries(After(Repeat(Insert, 1)), 1, Wholes(), 0)
  {
    AfterNothing();
    AfterSnoc([], Push);
    AfterSnoc([], Insert);
    assert Repeat(Push, 1) == [] + [Push] && Repeat(Insert, 1) == [] + [Insert];
  }

  /** n > 0 pushes into an empty vector end with the first capacity of 8, 12, 18, 27, ... that is enough for them, and
      n > 0 insertions with the first of 4, 8, 16, ...; each smaller one has been copied, when it was full. */
  lemma CapacitiesAreSeries(n: nat)
    requires n > 0
    ensures exists j: nat :: InSeries(After(Repeat(Push, n)), n, Halves(), j)
    ensures exists k: nat :: InSeries(After(Repeat(Insert, n)), n, Wholes(), k)
  {
    hide InSeries, After;
    var j, k := RepeatedGrowth(n);
  }

  /** Resizing takes what is asked for, or half as much again as there was, whichever is more; and nothing if it fits.
      */
  lemma ResizedCapacity(c: Cost, n: nat)
    ensures var r := Step(c, ResizeTo(n));
            && r.size == n && (n <= c.capacity ==> r.capacity == c.capacity && r.copied == c.copied)
            && (n > c.capacity ==>
                  && r.capacity >= n && r.copied == c.copied + c.size
                  && (c.capacity == 0 ==> r.capacity == n || r.capacity == 8 > n)
                  && (c.capacity > 0 ==> r.capacity == n || r.capacity == c.capacity + c.capacity / 2 > n))
  {}

  // ----- The vector

  class ImVector<T(0)> {
    var size: nat
    var data: array<T>  // its length is Capacity
    ghost var copied: nat
    ghost var peak: nat

    ghost predicate Valid()
      reads this
    {
      size <= data.Length
    }

    ghost function Spent(): Cost
      reads this
    {
      Cost(size, data.Length, copied, peak)
    }

    ghost function Contents(): seq<T>
      reads this, data
      requires Valid()
    {
      data[..size]
    }

    constructor ()
      ensures Valid() && Contents() == [] && Spent() == NOTHING && fresh(data)
    {
      size := 0;
      data := new T[0];
      copied, peak := 0, 0;
    }

    method Reserve(newCapacity: nat)
      requires Valid()
      modifies `data, `copied
      ensures Valid() && Contents() == old(Contents()) && Spent() == Reserved(old(Spent()), newCapacity)
      ensures data == old(data) || fresh(data)
    {
      if newCapacity <= data.Length {
        return;
      }
      var newData := new T[newCapacity];
      forall i | 0 <= i < size {
        newData[i] := data[i];
      }
      data := newData;
      copied := copied + size;
    }

    method Resize(newSize: nat)
      requires Valid()
      modifies this
      ensures Valid() && Spent() == Step(old(Spent()), ResizeTo(newSize))
      ensures if newSize <= old(size) then Contents() == old(Contents())[..newSize]
              else Contents()[..old(size)] == old(Contents())
      ensures data == old(data) || fresh(data)
    {
      if newSize > data.Length {
        Reserve(Grow(data.Length, newSize));
      }
      size := newSize;
      peak := if size > peak then size else peak;
    }

    method PushBack(v: T)
      requires Valid()
      modifies this, data
      ensures Valid() && Contents() == old(Contents()) + [v] && Spent() == Step(old(Spent()), Push)
      ensures data == old(data) || fresh(data)
    {
      if size == data.Length {
        Reserve(Grow(data.Length, size + 1));
      }
      data[size] := v;
      size := size + 1;
      peak := if size > peak then size else peak;
    }

    method PopBack()
      requires Valid() && size > 0
      modifies `size
      ensures Valid() && Contents() == old(Contents())[..old(size) - 1]
      ensures old(Spent().size <= Spent().peak) ==> Spent() == Step(old(Spent()), Pop)
    {
      size := size - 1;
    }

    method InsertAt(off: nat, v: T)
      requires Valid() && off <= size
      modifies this, data
      ensures Valid() && Contents() == old(Contents())[..off] + [v] + old(Contents())[off..]
      ensures Spent() == Step(old(Spent()), Insert)
      ensures data == old(data) || fresh(data)
    {
      if size == data.Length {
        Reserve(if data.Length != 0 then data.Length * 2 else 4);
      }
      ghost var before := data[..size];
      OpenGap(off);
      data[off] := v;
      size := size + 1;
      assert data[off + 1..size] == before[off..] && data[..off] == before[..off];
      assert data[..size] == data[..off] + [data[off]] + data[off + 1..size];
      peak := if size > peak then size else peak;
    }

    /** memmove of the elements from `off` on by one place up. */
    method OpenGap(off: nat)
      requires off <= size < data.Length
      modifies data
      ensures data[..off] == old(data[..off]) && data[off + 1..size + 1] == old(data[off..size])
    {
      forall i | off <= i < size {
        data[i + 1] := data[i];
      }
    }

    method EraseAt(off: nat)
      requires Valid() && off < size
      modifies `size, data
      ensures Valid() && Contents() == old(Contents())[..off] + old(Contents())[off + 1..]
      ensures old(Spent().size <= Spent().peak) ==> Spent() == Step(old(Spent()), Erase)
    {
      ghost var before := data[..size];
      forall i | off <= i < size - 1 {
        data[i] := data[i + 1];
      }
      size := size - 1;
      assert data[..size] == before[..off] + before[off + 1..];
    }

    method Clear()
      modifies this
      ensures Valid() && Contents() == [] && Spent() == NOTHING && fresh(data)
    {
      size := 0;
      data := new T[0];
      copied, peak := 0, 0;
    }

    method Swap(rhs: ImVector<T>)
      requires Valid() && rhs.Valid()
      modifies this, rhs
      ensures Valid() && rhs.Valid()
      ensures data == old(rhs.data) && Contents() == old(rhs.Contents()) && Spent() == old(rhs.Spent())
      ensures rhs.data == old(data) && rhs.Contents() == old(Contents()) && rhs.Spent() == old(Spent())
    {
      size, rhs.size := rhs.size, size;
      data, rhs.data := rhs.data, data;
      copied, rhs.copied := rhs.copied, copied;
      peak, rhs.peak := rhs.peak, peak;
    }
  }
}
