/** Positions of a bounded queue: buffer index, closed flag and sequence count packed in one integer. */
module QueuePositions {
  import opened Arithmetic

  /** Buffer index of the `t`-th message. */
  function Slot(t: nat, capacity: nat): nat
    requires 0 < capacity
    decreases t
  {
    if t < capacity then t else Slot(t - capacity, capacity)
  }

  /**
   * Queue position of the `t`-th message: the index in the low bits, a zero flag bit (of weight `flag`), and the
   * number of times the buffer was gone through above.
   */
  function Pos(t: nat, capacity: nat, flag: nat): nat
    requires 0 < capacity
    decreases t
  {
    if t < capacity then t else Pos(t - capacity, capacity, flag) + 2 * flag
  }

  /** `pos & right_mask` */
  function Index(pos: nat, flag: nat): nat
    requires 0 < flag
  {
    pos % (2 * flag)
  }

  /** `pos & closed_channel_mask != 0` */
  predicate Flagged(pos: nat, flag: nat)
    requires 0 < flag
  {
    flag <= pos % (2 * flag)
  }

  /** `pos | closed_channel_mask` */
  function WithFlag(pos: nat, flag: nat): nat
    requires 0 < flag
  {
    if Flagged(pos, flag) then pos else pos + flag
  }

  /** The position after `pos`, wrapping the index to zero at the end of the buffer. */
  function NextPos(pos: nat, capacity: nat, flag: nat): nat
    requires 0 < flag
  {
    if Index(pos + 1, flag) < capacity then pos + 1 else pos - Index(pos, flag) + 2 * flag
  }

  lemma ModShift(x: nat, m: nat)
    requires 0 < m
    ensures (x + m) % m == x % m
  {
    var q, r := x / m, x % m;
    assert x + m == (q + 1) * m + r;
    ModUnique(x + m, m, q + 1, r);
  }

  lemma ModUnique(a: nat, m: nat, q: nat, r: nat)
    requires 0 < m && a == q * m + r && r < m
    ensures a % m == r
  {
    var p := a / m;
    assert a == p * m + a % m;
    if p < q {
      LessTimes(p + 1, q, m);
    } else if q < p {
      LessTimes(q + 1, p, m);
    }
  }

  /** The packed fields read back: the index is the slot and the flag is clear, even for the stamp one above. */
  lemma {:induction false} PosFields(t: nat, capacity: nat, flag: nat)
    requires 0 < capacity <= flag
    ensures Slot(t, capacity) < capacity
    ensures Index(Pos(t, capacity, flag), flag) == Slot(t, capacity)
    ensures !Flagged(Pos(t, capacity, flag), flag)
    ensures Index(Pos(t, capacity, flag) + 1, flag) == Slot(t, capacity) + 1
    ensures Flagged(Pos(t, capacity, flag) + flag, flag)
    decreases t
  {
    var m := 2 * flag;
    if t < capacity {
      SmallMod(t, m);
      SmallMod(t + 1, m);
      SmallMod(t + flag, m);
    } else {
      PosFields(t - capacity, capacity, flag);
      var p := Pos(t - capacity, capacity, flag);
      ModShift(p, m);
      ModShift(p + 1, m);
      ModShift(p + flag, m);
    }
  }

  lemma SmallMod(x: nat, m: nat)
    requires x < m
    ensures x % m == x
  {
  }

  lemma {:induction false} SlotSteps(t: nat, capacity: nat)
    requires 0 < capacity
    ensures Slot(t, capacity) < capacity
    ensures Slot(t + 1, capacity) == if Slot(t, capacity) + 1 < capacity then Slot(t, capacity) + 1 else 0
    ensures Slot(t + capacity, capacity) == Slot(t, capacity)
    decreases t
  {
    if t >= capacity {
      SlotSteps(t - capacity, capacity);
    }
  }

  lemma {:induction false} PosSteps(t: nat, capacity: nat, flag: nat)
    requires 0 < capacity <= flag
    ensures Pos(t + 1, capacity, flag) == (if Slot(t, capacity) + 1 < capacity then Pos(t, capacity, flag) + 1
                                           else Pos(t, capacity, flag) - Slot(t, capacity) + 2 * flag)
    ensures Pos(t + capacity, capacity, flag) == Pos(t, capacity, flag) + 2 * flag
    ensures Pos(t, capacity, flag) < Pos(t + 1, capacity, flag)
    decreases t
  {
    SlotSteps(t, capacity);
    if t >= capacity {
      PosSteps(t - capacity, capacity, flag);
    }
  }

  /** Incrementing the position of a message gives the position of the next. */
  lemma NextPosIsPos(t: nat, capacity: nat, flag: nat)
    requires 0 < capacity <= flag
    ensures NextPos(Pos(t, capacity, flag), capacity, flag) == Pos(t + 1, capacity, flag)
  {
    hide Index, Pos, Slot, Flagged;
    PosFields(t, capacity, flag);
    PosSteps(t, capacity, flag);
  }

  lemma {:induction false} PosIncreases(t: nat, u: nat, capacity: nat, flag: nat)
    requires 0 < capacity <= flag && t < u
    ensures Pos(t, capacity, flag) < Pos(u, capacity, flag)
    decreases u
  {
    hide Pos;
    PosSteps(u - 1, capacity, flag);
    if t < u - 1 {
      PosIncreases(t, u - 1, capacity, flag);
    }
  }

  lemma {:induction false} SlotsApart(t: nat, u: nat, capacity: nat)
    requires 0 < capacity && t < u
    ensures Slot(t, capacity) == Slot(u, capacity) ==> t + capacity <= u
    decreases t
  {
    if t >= capacity {
      SlotsApart(t - capacity, u - capacity, capacity);
    } else if u >= capacity && u < t + capacity {
      assert Slot(u, capacity) == u - capacity;
    }
  }

  /** Messages a full round or more apart have stamps more than one apart: the two never get confused. */
  lemma RoundsApart(t: nat, u: nat, capacity: nat, flag: nat)
    requires 0 < capacity <= flag && t < u && Slot(t, capacity) == Slot(u, capacity)
    ensures t + capacity <= u && Pos(t, capacity, flag) + 2 <= Pos(u, capacity, flag)
  {
    hide Pos, Slot;
    SlotsApart(t, u, capacity);
    PosSteps(t, capacity, flag);
    if t + capacity < u {
      PosIncreases(t + capacity, u, capacity, flag);
    }
  }

  /** Every message's slot is also that of one message among any `capacity` consecutive ones. */
  lemma {:induction false} WindowHas(r: nat, k: nat, capacity: nat) returns (t: nat)
    requires 0 < capacity
    ensures r <= t < r + capacity && Slot(t, capacity) == Slot(k, capacity)
    decreases if r <= k < r + capacity then 0 else if k < r then 1 + r - k else 1 + k - r
  {
    SlotSteps(k, capacity);
    if r <= k < r + capacity {
      t := k;
    } else if k < r {
      t := WindowHas(r, k + capacity, capacity);
    } else {
      t := WindowHas(r, k - capacity, capacity);
    }
  }
}
