/**
 * AnnouncerThread: the rotation selector. Each trigger picks the next
 * announcement index, sequentially with wrap-around or from a random draw,
 * and announces it only when it is in range.
 */
module Rotation {
  import opened JavaLang

  /** What one trigger does besides updating the last index. */
  datatype Trigger =
    | Idle                    // nothing is announced
    | Announce(index: int)    // plugin.announce(index), with a 1-based index
    | DivisionByZero          // the random branch divided by an empty store's size

  datatype Step = Step(last: int, trigger: Trigger)

  /**
   * The random pick: the draw's magnitude modulo the store size. (See
   * RandomIndexAsWritten for the Java expression, which differs on one draw.)
   */
  function RandomIndex(draw: int, size: nat): (i: int)
    requires IsInt(draw) && size > 0
    ensures 0 <= i < size
  {
    (if draw < 0 then -draw else draw) % size
  }

  /**
   * Math.abs(draw) % size, in Java's 32-bit arithmetic: below size, but
   * negative for the one draw whose magnitude does not fit in an int.
   */
  function RandomIndexAsWritten(draw: int, size: nat): (i: int)
    requires IsInt(draw) && size > 0
    ensures IsInt(i) && i + size > 0 && i < size
    ensures draw != IntMin ==> i == RandomIndex(draw, size)
  {
    Rem(Abs(draw), size)
  }

  /** Exactly the draw Integer.MIN_VALUE can give a negative pick. */
  lemma RandomIndexAsWrittenAgrees(draw: int, size: nat)
    requires IsInt(draw) && size > 0
    ensures RandomIndexAsWritten(draw, size) < 0 ==> draw == IntMin
    ensures draw != IntMin ==> 0 <= RandomIndexAsWritten(draw, size) < size
  {
  }

  /**
   * Math.abs(Integer.MIN_VALUE) is negative, so with three announcements the
   * draw Integer.MIN_VALUE selects index -2, and the guard `-2 < size` then
   * lets announce(-1) through, which reads list element -2.
   */
  lemma RandomIndexAsWrittenOutOfRange()
    ensures RandomIndexAsWritten(IntMin, 3) == -2
    ensures RandomIndexAsWritten(IntMin, 3) < 3
    ensures RandomIndex(IntMin, 3) == 2
  {
    assert Abs(IntMin) == IntMin;
    assert 0x8000_0000 % 3 == 2;
  }

  /**
   * The sequential pick, `++lastAnnouncement` in int arithmetic: one further,
   * back to the first when at or past the end.
   */
  function NextSequential(last: int, size: nat): (i: int)
    requires IsInt(last)
    ensures IsInt(i) && (size > 0 ==> i < size)
    ensures last < IntMax && last + 1 < size ==> i == last + 1
    ensures last < IntMax && last + 1 >= size ==> i == 0
    ensures last == IntMax ==> i == IntMin
  {
    var next := Wrap(last + 1);
    if next >= size then 0 else next
  }

  /** One call of run(): the new last index and what is announced. */
  function Tick(last: int, enabled: bool, random: bool, size: nat, draw: int): (r: Step)
    requires IsInt(last) && IsInt(draw)
    ensures IsInt(r.last)
    ensures !enabled ==> r == Step(last, Idle)
    ensures enabled && size > 0 ==> r.last < size && r.trigger == Announce(r.last + 1)
    ensures enabled && size == 0 && random ==> r == Step(last, DivisionByZero)
    ensures enabled && size == 0 && !random && -1 <= last < IntMax ==> r == Step(0, Idle)
    ensures enabled && !random ==> r.last == NextSequential(last, size)
    ensures enabled && random && size > 0 ==> r.last == RandomIndexAsWritten(draw, size)
  {
    if !enabled then Step(last, Idle)
    else if random && size == 0 then Step(last, DivisionByZero)
    else
      var next := if random then RandomIndexAsWritten(draw, size) else NextSequential(last, size);
      Step(next, if next < size then Announce(next + 1) else Idle)
  }

  /**
   * The index run() hands to announce(int) is a valid 1-based index unless
   * the draw was Integer.MIN_VALUE or the last index was already negative
   * (below -1) from such a draw.
   */
  lemma TickAnnouncesInRange(last: int, random: bool, size: nat, draw: int)
    requires IsInt(last) && IsInt(draw) && size > 0
    requires random ==> draw != IntMin
    requires !random ==> -1 <= last < IntMax
    ensures var r := Tick(last, true, random, size, draw);
            r.trigger.Announce? && 1 <= r.trigger.index <= size
  {
  }

  /**
   * With three announcements the draw Integer.MIN_VALUE makes run() call
   * announce(-1), and the next sequential run() calls announce(0): both
   * indices lie outside 1..3, so List.get throws twice.
   */
  lemma NegativePickPersists()
    ensures Tick(0, true, true, 3, IntMin) == Step(-2, Announce(-1))
    ensures Tick(-2, true, false, 3, 0) == Step(-1, Announce(0))
    ensures Tick(-1, true, false, 3, 0) == Step(0, Announce(1))
  {
    RandomIndexAsWrittenOutOfRange();
  }

  class AnnouncerThread {
    /** The last announcement index (0-based); only the sequential mode reads it. */
    var lastAnnouncement: int

    /** The field is a Java int. */
    ghost predicate Valid()
      reads this
    {
      IsInt(lastAnnouncement)
    }

    constructor ()
      ensures Valid() && lastAnnouncement == 0
    {
      lastAnnouncement := 0;
    }

    /**
     * AnnouncerThread.run, with the plugin's enabled and random flags, the
     * store size and the random draw as inputs. The announcement itself is
     * returned as a trigger for the plugin to carry out.
     */
    method Run(enabled: bool, random: bool, size: nat, draw: int) returns (t: Trigger)
      requires Valid() && IsInt(draw)
      modifies this
      ensures Valid()
      ensures Step(lastAnnouncement, t) == Tick(old(lastAnnouncement), enabled, random, size, draw)
    {
      if !enabled {
        return Idle;
      }
      if random {
        if size == 0 {
          return DivisionByZero;
        }
        lastAnnouncement := Rem(Abs(draw), size);
      } else {
        lastAnnouncement := Wrap(lastAnnouncement + 1);
        if lastAnnouncement >= size {
          lastAnnouncement := 0;
        }
        assert lastAnnouncement == NextSequential(old(lastAnnouncement), size);
      }
      if lastAnnouncement < size {
        t := Announce(lastAnnouncement + 1);
      } else {
        t := Idle;
      }
    }
  }

  // ---------------------------------------------------------------------------
  // Sequential rotation over several triggers
  // ---------------------------------------------------------------------------

  /** The 1-based indices announced by `k` sequential triggers from last index `last`. */
  function SequentialAnnouncements(last: int, size: nat, k: nat): seq<int>
    requires IsInt(last)
    decreases k
  {
    if k == 0 then []
    else
      var s := Tick(last, true, false, size, 0);
      (if s.trigger.Announce? then [s.trigger.index] else []) + SequentialAnnouncements(s.last, size, k - 1)
  }

  lemma ModShift(n: nat, x: nat)
    requires n > 0
    ensures (n + x) % n == x % n
  {
    ModUnique(n + x, n, x / n + 1, x % n);
  }

  /** Counting j more steps from the next index is counting j + 1 steps from the last one. */
  lemma NextSequentialShift(last: nat, size: nat, j: nat)
    requires last < size <= IntMax
    ensures (NextSequential(last, size) + j) % size == (last + 1 + j) % size
  {
    if last + 1 == size {
      ModShift(size, j);
    }
  }

  /**
   * From a last index inside the store, sequential triggers announce every
   * index in cyclic order, each one after the previous: trigger `j` announces
   * 1-based index ((last + 1 + j) mod size) + 1.
   */
  lemma {:induction false} SequentialCycle(last: nat, size: nat, k: nat)
    requires last < size <= IntMax
    ensures |SequentialAnnouncements(last, size, k)| == k
    ensures forall j :: 0 <= j < k ==> SequentialAnnouncements(last, size, k)[j] == (last + 1 + j) % size + 1
    decreases k
  {
    if k > 0 {
      var next := NextSequential(last, size);
      assert Tick(last, true, false, size, 0) == Step(next, Announce(next + 1));
      SequentialCycle(next, size, k - 1);
      var rest := SequentialAnnouncements(next, size, k - 1);
      assert SequentialAnnouncements(last, size, k) == [next + 1] + rest;
      assert next == (last + 1) % size by {
        NextSequentialShift(last, size, 0);
        ModUnique(next, size, 0, next);
      }
      forall j | 0 < j < k
        ensures SequentialAnnouncements(last, size, k)[j] == (last + 1 + j) % size + 1
      {
        assert rest[j - 1] == (next + j) % size + 1;
        NextSequentialShift(last, size, j);
      }
    }
  }

  /**
   * From the initial last index 0, the first trigger skips message 1: with
   * N >= 2 messages the triggers announce 2, 3, ..., N, 1, 2, ...
   */
  lemma FirstTriggersFromStart(size: nat, k: nat)
    requires 2 <= size <= IntMax
    ensures |SequentialAnnouncements(0, size, k)| == k
    ensures forall j :: 0 <= j < k ==> SequentialAnnouncements(0, size, k)[j] == (j + 1) % size + 1
    ensures k >= 1 ==> SequentialAnnouncements(0, size, k)[0] == 2
    ensures k >= size ==> SequentialAnnouncements(0, size, k)[size - 1] == 1
  {
    SequentialCycle(0, size, k);
    if k >= size {
      assert (size - 1 + 1) % size == 0;
    }
  }

  /** 2N triggers over N messages give two full cycles, the second a copy of the first. */
  lemma TwoCycles(last: nat, size: nat)
    requires last < size <= IntMax
    ensures var a := SequentialAnnouncements(last, size, 2 * size);
            |a| == 2 * size && a[size..] == a[..size]
  {
    SequentialCycle(last, size, 2 * size);
    var a := SequentialAnnouncements(last, size, 2 * size);
    forall j | 0 <= j < size
      ensures a[size..][j] == a[..size][j]
    {
      ModShift(size, last + 1 + j);
      assert last + 1 + (size + j) == size + (last + 1 + j);
    }
  }

  /**
   * A sequential trigger on an empty store resets a last index of -1 or more
   * to 0 and announces nothing; a last index below -1 only moves up by one
   * and is announced, and so is Integer.MIN_VALUE after `++` wraps.
   */
  lemma SequentialOnEmptyStore(last: int)
    requires IsInt(last)
    ensures -1 <= last < IntMax ==> Tick(last, true, false, 0, 0) == Step(0, Idle)
    ensures last < -1 ==> Tick(last, true, false, 0, 0) == Step(last + 1, Announce(last + 2))
    ensures last == IntMax ==> Tick(last, true, false, 0, 0) == Step(IntMin, Announce(IntMin + 1))
  {
  }

  /**
   * After deletions leave the last index at or past the new last position,
   * the next sequential trigger wraps to the first message instead of going
   * out of range (Integer.MAX_VALUE itself wraps to Integer.MIN_VALUE under `++`).
   */
  lemma SequentialAfterShrink(last: int, size: nat, draw: int)
    requires size > 0 && last >= size - 1 && IsInt(last) && IsInt(draw)
    ensures last < IntMax ==> Tick(last, true, false, size, draw) == Step(0, Announce(1))
    ensures last == IntMax ==> Tick(last, true, false, size, draw) == Step(IntMin, Announce(IntMin + 1))
  {
  }
}
