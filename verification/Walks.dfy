/** Walks over 32-bit offsets: a step from an offset halts or leads to another one. */
module Walks {
  import opened Bytes
  import opened FiniteSets

  datatype Next = Halt | Go(off: u32)

  type Step = u32 -> Next

  /** Where a walk is after `n` steps. */
  function After(f: Step, off: u32, n: nat): Next
    decreases n
  {
    if n == 0 then Go(off)
    else match f(off)
      case Halt => Halt
      case Go(next) => After(f, next, n - 1)
  }

  ghost predicate Ends(f: Step, off: u32) { exists n: nat :: After(f, off, n) == Halt }

  /** Some offset is met twice. */
  ghost predicate Repeats(f: Step, off: u32) {
    exists i: nat, j: nat :: i < j && After(f, off, i).Go? && After(f, off, i) == After(f, off, j)
  }

  lemma {:induction false} AfterJoin(f: Step, off: u32, a: nat, b: nat)
    ensures After(f, off, a + b) == match After(f, off, a) case Halt => Halt case Go(o) => After(f, o, b)
    decreases a
  {
    if a > 0 {
      match f(off)
      case Halt =>
      case Go(next) => AfterJoin(f, next, a - 1, b);
    }
  }

  /** Once halted, a walk stays so. */
  lemma HaltStays(f: Step, off: u32, n: nat, m: nat)
    requires After(f, off, n) == Halt && n <= m
    ensures After(f, off, m) == Halt
  {
    AfterJoin(f, off, n, m - n);
  }

  /** A walk that meets an offset again goes round for ever. */
  lemma {:induction false} RoundForEver(f: Step, off: u32, i: nat, j: nat, n: nat)
    requires i < j && After(f, off, i).Go? && After(f, off, i) == After(f, off, j)
    ensures After(f, off, n).Go?
    decreases n
  {
    if n < j {
      if After(f, off, n) == Halt {
        HaltStays(f, off, n, j);
      }
    } else {
      RoundForEver(f, off, i, j, n - (j - i));
      AfterJoin(f, off, j, n - j);
      AfterJoin(f, off, i, n - j);
    }
  }

  /** The offsets met in the first `n` steps. */
  function Met(f: Step, off: u32, n: nat): (s: set<nat>)
    ensures forall x :: x in s ==> x < 0x1_0000_0000
  {
    if n == 0 then {}
    else match After(f, off, n - 1)
      case Halt => Met(f, off, n - 1)
      case Go(o) => Met(f, off, n - 1) + {o}
  }

  lemma {:induction false} MetOnce(f: Step, off: u32, n: nat, o: u32)
    ensures o as nat in Met(f, off, n) ==> exists i: nat :: i < n && After(f, off, i) == Go(o)
    decreases n
  {
    if n > 0 {
      MetOnce(f, off, n - 1, o);
      assert After(f, off, n - 1) == Go(o) || (o as nat in Met(f, off, n) ==> o as nat in Met(f, off, n - 1));
    }
  }

  lemma {:induction false} MetSize(f: Step, off: u32, n: nat)
    requires !Repeats(f, off) && forall i: nat :: i < n ==> After(f, off, i).Go?
    ensures |Met(f, off, n)| == n
    decreases n
  {
    if n > 0 {
      MetSize(f, off, n - 1);
      var o := After(f, off, n - 1).off;
      MetOnce(f, off, n - 1, o);
      assert forall i: nat :: i < n - 1 ==> After(f, off, i) != After(f, off, n - 1);
    }
  }

  /** A walk ends if and only if it never meets an offset again. */
  lemma EndsExactly(f: Step, off: u32)
    ensures Ends(f, off) <==> !Repeats(f, off)
  {
    hide Met;
    if Repeats(f, off) {
      var i: nat, j: nat :| i < j && After(f, off, i).Go? && After(f, off, i) == After(f, off, j);
      forall n: nat
        ensures After(f, off, n).Go?
      {
        RoundForEver(f, off, i, j, n);
      }
    } else if !Ends(f, off) {
      var n := 0x1_0000_0001;
      MetSize(f, off, n);
      SubsetSize(Met(f, off, n), Below(0x1_0000_0000));
    }
  }

  /** Steps that always lead further on, within a bound, end. */
  lemma {:induction false} ForwardEnds(f: Step, off: u32, limit: nat)
    requires off <= limit ==> forall o: u32 :: o <= limit && f(o).Go? ==> f(o).off > o
    requires forall o: u32 :: o > limit ==> f(o) == Halt
    ensures Ends(f, off)
    decreases limit + 1 - off
  {
    match f(off)
    case Halt =>
      assert After(f, off, 1) == Halt;
    case Go(next) =>
      if next > limit {
        assert After(f, next, 1) == Halt && After(f, off, 2) == After(f, next, 1);
      } else {
        ForwardEnds(f, next, limit);
        var n: nat :| After(f, next, n) == Halt;
        assert After(f, off, n + 1) == Halt;
      }
  }
}
