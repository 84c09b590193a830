/** The engine's own step table: an array of pointers to records that doubles when full, and
    fills all its new slots with pointers to one and the same record
    (cchess_engine/board.cc, initHistoryStepRecords, makeHistoryStep, undoMove). */
module History {

  const INITIAL_SIZE := 2048

  class Slot<T> {
    var step: T

    constructor (step: T)
      ensures this.step == step
    {
      this.step := step;
    }
  }

  /** The capacities the table goes through. */
  predicate IsCapacity(c: nat) {
    c == INITIAL_SIZE || (c > INITIAL_SIZE && c % 2 == 0 && IsCapacity(c / 2))
  }

  /** The capacity at the growth that created slot n. */
  function Block(n: nat): (b: nat)
    requires INITIAL_SIZE <= n
    ensures b <= n < 2 * b
  {
    if n < 2 * INITIAL_SIZE then INITIAL_SIZE else 2 * Block(n / 2)
  }

  lemma {:induction false} BlockOf(c: nat, n: nat)
    requires IsCapacity(c) && c <= n < 2 * c
    ensures INITIAL_SIZE <= n && Block(n) == c
  {
    if c > INITIAL_SIZE {
      BlockOf(c / 2, n / 2);
    }
  }

  /** Slots i and j hold the same record: one slot, or two slots filled by the same growth. */
  predicate Shared(i: nat, j: nat) {
    i == j || (INITIAL_SIZE <= i && INITIAL_SIZE <= j && Block(i) == Block(j))
  }

  /** The records read back after step is pushed onto the records h. */
  function Pushed<T>(h: seq<T>, step: T): seq<T> {
    seq(|h| + 1, i requires 0 <= i <= |h| => if i == |h| || Shared(i, |h|) then step else h[i])
  }

  /** A push leaves the older records alone exactly when it goes to one of the first 2048 slots or
      to the first slot of a growth, or repeats the records it shares its slot with. */
  lemma PushExact<T>(h: seq<T>, step: T)
    ensures Pushed(h, step) == h + [step] <==>
            |h| < INITIAL_SIZE || forall i :: Block(|h|) <= i < |h| ==> h[i] == step
  {
    var p := Pushed(h, step);
    if |h| < INITIAL_SIZE {
      assert p == h + [step];
    } else {
      forall i: nat | i < |h|
        ensures Shared(i, |h|) <==> Block(|h|) <= i
      {
        SharedIsBlock(i, |h|);
      }
      if p == h + [step] {
        forall i | Block(|h|) <= i < |h|
          ensures h[i] == step
        {
          assert p[i] == (h + [step])[i];
        }
      } else {
        if forall i :: Block(|h|) <= i < |h| ==> h[i] == step {
          assert forall i :: 0 <= i < |p| ==> p[i] == (h + [step])[i];
        }
      }
    }
  }

  lemma {:induction false} SharedIsBlock(i: nat, n: nat)
    requires i < n && INITIAL_SIZE <= n
    ensures Shared(i, n) <==> Block(n) <= i
  {
    BlockIsCapacity(n);
    if Block(n) <= i {
      BlockOf(Block(n), i);
    }
  }

  lemma {:induction false} BlockIsCapacity(n: nat)
    requires INITIAL_SIZE <= n
    ensures IsCapacity(Block(n))
  {
    if n >= 2 * INITIAL_SIZE {
      BlockIsCapacity(n / 2);
    }
  }

  /** Up to 2049 records every push is an exact stack push. */
  lemma FirstPushesExact<T>(h: seq<T>, step: T)
    requires |h| <= INITIAL_SIZE
    ensures Pushed(h, step) == h + [step]
  {
    PushExact(h, step);
  }

  /** The 2050th record overwrites the 2049th. */
  lemma RecordLost<T>(h: seq<T>, step: T)
    requires |h| == INITIAL_SIZE + 1 && h[INITIAL_SIZE] != step
    ensures Pushed(h, step)[INITIAL_SIZE] == step
    ensures Pushed(h, step) != h + [step]
  {
    assert Pushed(h, step)[INITIAL_SIZE] != (h + [step])[INITIAL_SIZE];
  }

  // ---- Runs ----

  datatype Act<T> = Put(step: T) | Take

  /** What a plain stack holds after a run of pushes and pops; a pop of nothing does nothing. */
  function Stack<T>(h: seq<T>, acts: seq<Act<T>>): seq<T> {
    if acts == [] then h
    else
      var was := Stack(h, acts[..|acts| - 1]);
      match acts[|acts| - 1]
      case Put(step) => was + [step]
      case Take => if was == [] then was else was[..|was| - 1]
  }

  /** Whenever the run pushes, at most n records are there. */
  predicate Within<T>(h: seq<T>, acts: seq<Act<T>>, n: nat) {
    forall i :: 0 <= i < |acts| && acts[i].Put? ==> |Stack(h, acts[..i])| <= n
  }

  class Table<T> {
    var slots: seq<Slot<T>>
    var size: nat

    /** Slots are as distinct as the growths made them. */
    ghost predicate Valid()
      reads this
    {
      && IsCapacity(|slots|) && size <= |slots|
      && forall i, j :: 0 <= i < |slots| && 0 <= j < |slots| ==> (slots[i] == slots[j] <==> Shared(i, j))
    }

    /** The records in use, as they read now. */
    ghost function Records(): seq<T>
      requires Valid()
      reads this, slots
    {
      var all := slots;
      seq(size, i requires 0 <= i < |all| reads all => all[i].step)
    }

    constructor (blank: T)
      ensures Valid() && Records() == [] && fresh(slots)
    {
      var made: seq<Slot<T>> := [];
      while |made| < INITIAL_SIZE
        invariant |made| <= INITIAL_SIZE && fresh(made)
        invariant forall i, j :: 0 <= i < |made| && 0 <= j < |made| ==> (made[i] == made[j] <==> i == j)
      {
        var s := new Slot(blank);
        made := made + [s];
      }
      slots, size := made, 0;
    }

    /** The table doubles: every new slot points to one new record. */
    method Grow(blank: T)
      requires Valid()
      modifies this`slots
      ensures Valid() && |slots| == 2 * |old(slots)| && slots[..|old(slots)|] == old(slots)
      ensures fresh(set s | s in slots[|old(slots)|..])
      ensures Records() == old(Records())
    {
      var n := |slots|;
      var one := new Slot(blank);
      var bigger := slots + seq(n, _ => one);
      forall i, j | 0 <= i < 2 * n && 0 <= j < 2 * n
        ensures bigger[i] == bigger[j] <==> Shared(i, j)
      {
        SharedAfterGrowth(n, i, j);
      }
      slots := bigger;
    }

    /** makeHistoryStep. */
    method Push(step: T)
      requires Valid()
      modifies this, slots
      ensures Valid() && fresh(set s | s in slots && s !in old(slots))
      ensures Records() == Pushed(old(Records()), step)
    {
      if size == |slots| {
        Grow(step);
      }
      slots[size].step := step;
      size := size + 1;
    }

    /** Every run of pushes and pops that never pushes onto more than 2048 records reads back as a plain
        stack: this is the history the board keeps as a sequence. */
    method Replay(acts: seq<Act<T>>)
      requires Valid() && Within(Records(), acts, INITIAL_SIZE)
      modifies this, slots
      ensures Valid() && Records() == Stack(old(Records()), acts)
      ensures fresh(set s | s in slots && s !in old(slots))
    {
      hide Valid, Records, Within, Pushed;
      ghost var h := Records();
      for i := 0 to |acts|
        invariant Valid() && Records() == Stack(h, acts[..i])
        invariant fresh(set s | s in slots && s !in old(slots))
      {
        StackStep(h, acts, i);
        match acts[i] {
          case Put(step) =>
            RoomToPut(h, acts, i);
            FirstPushesExact(Records(), step);
            Push(step);
          case Take =>
            SizeIs();
            if size > 0 {
              var _ := Pop();
            }
        }
      }
      assert acts[..|acts|] == acts;
    }

    lemma SizeIs()
      requires Valid()
      ensures |Records()| == size
    {
    }

    /** The record undoMove takes off; the slots stay. */
    method Pop() returns (step: T)
      requires Valid() && size > 0
      modifies this`size
      ensures Valid() && slots == old(slots)
      ensures step == old(Records())[old(size) - 1] && Records() == old(Records())[..old(size) - 1]
    {
      size := size - 1;
      step := slots[size].step;
    }
  }

  lemma StackStep<T>(h: seq<T>, acts: seq<Act<T>>, i: nat)
    requires i < |acts|
    ensures var was := Stack(h, acts[..i]);
            Stack(h, acts[..i + 1]) ==
            match acts[i]
            case Put(step) => was + [step]
            case Take => if was == [] then was else was[..|was| - 1]
  {
    assert acts[..i + 1][..i] == acts[..i];
  }

  lemma RoomToPut<T>(h: seq<T>, acts: seq<Act<T>>, i: nat)
    requires Within(h, acts, INITIAL_SIZE) && i < |acts| && acts[i].Put?
    ensures |Stack(h, acts[..i])| <= INITIAL_SIZE
  {
  }

  lemma SharedAfterGrowth(n: nat, i: nat, j: nat)
    requires IsCapacity(n) && i < 2 * n && j < 2 * n
    ensures i >= n && j >= n ==> Shared(i, j)
    ensures i < n <= j || j < n <= i ==> !Shared(i, j)
  {
    if i >= n {
      BlockOf(n, i);
    }
    if j >= n {
      BlockOf(n, j);
    }
  }
}
