/** Loops that move a read position: what the turns of any such loop have in common, and when it ends. */
module Turns {
  import opened Wrappers

  /** One turn takes a position to the next one, or ends the loop. */
  type Move = int -> Option<int>

  /** The position after `n` turns from 0, or nothing if the loop ended before. */
  function After(move: Move, n: nat): Option<int> {
    if n == 0 then Some(0)
    else
      var before := After(move, n - 1);
      if before.None? then None else move(before.value)
  }

  ghost predicate Ends(move: Move) {
    exists n: nat :: After(move, n).None?
  }

  /** Turns `i` and `j` start at the same position. */
  ghost predicate Meet(move: Move, i: nat, j: nat) {
    i < j && After(move, i).Some? && After(move, i) == After(move, j)
  }

  ghost predicate MeetsTwice(move: Move) {
    exists i: nat, j: nat :: Meet(move, i, j)
  }

  lemma {:induction false} StaysEnded(move: Move, m: nat, n: nat)
    requires m <= n && After(move, m).None?
    ensures After(move, n).None?
    decreases n
  {
    if m < n {
      StaysEnded(move, m, n - 1);
    }
  }

  lemma {:induction false} SameFuture(move: Move, i: nat, j: nat, k: nat)
    requires Meet(move, i, j)
    ensures After(move, i + k) == After(move, j + k)
    decreases k
  {
    if k > 0 {
      SameFuture(move, i, j, k - 1);
    }
  }

  lemma {:induction false} MeetingGoesOn(move: Move, i: nat, j: nat, n: nat)
    requires Meet(move, i, j)
    ensures After(move, n).Some?
    decreases n
  {
    if n > j {
      MeetingGoesOn(move, i, j, n - (j - i));
      SameFuture(move, i, j, n - j);
    } else if After(move, n).None? {
      StaysEnded(move, n, j);
    }
  }

  /** No turn leaves the `size` positions from `lo` on, 0 being one of them. */
  ghost predicate Within(move: Move, lo: int, size: nat) {
    lo <= 0 < lo + size && forall x | lo <= x < lo + size && move(x).Some? :: lo <= move(x).value < lo + size
  }

  lemma {:induction false} AfterWithin(move: Move, lo: int, size: nat, n: nat)
    requires Within(move, lo, size)
    ensures After(move, n).Some? ==> lo <= After(move, n).value < lo + size
  {
    if n > 0 {
      AfterWithin(move, lo, size, n - 1);
    }
  }

  function Interval(lo: int, size: nat): (r: set<int>)
    ensures |r| == size && forall x :: x in r <==> lo <= x < lo + size
  {
    if size == 0 then {} else Interval(lo, size - 1) + {lo + size - 1}
  }

  /** The positions at which the first `n` turns start. */
  function Trace(move: Move, n: nat): (r: seq<int>)
    requires n > 0 ==> After(move, n - 1).Some?
    ensures |r| == n && forall i | 0 <= i < n :: After(move, i) == Some(r[i])
  {
    if n == 0 then [] else StartedBefore(move, n - 1); Trace(move, n - 1) + [After(move, n - 1).value]
  }

  lemma StartedBefore(move: Move, n: nat)
    requires After(move, n).Some?
    ensures n > 0 ==> After(move, n - 1).Some?
  {
  }

  lemma TraceNext(move: Move, n: nat)
    requires After(move, n).Some?
    ensures (n > 0 ==> After(move, n - 1).Some?) && Trace(move, n + 1) == Trace(move, n) + [After(move, n).value]
  {
    StartedBefore(move, n);
  }

  lemma {:induction false} FixedPoint(move: Move, n: nat)
    requires move(0) == Some(0)
    ensures After(move, n) == Some(0)
  {
    if n > 0 {
      FixedPoint(move, n - 1);
    }
  }

  lemma {:induction false} Distinct(s: seq<int>)
    requires forall i, j | 0 <= i < j < |s| :: s[i] != s[j]
    ensures |set x | x in s| == |s|
  {
    if s != [] {
      var n := |s| - 1;
      Distinct(s[..n]);
      assert (set x | x in s) == (set x | x in s[..n]) + {s[n]};
    }
  }

  lemma EndsInTime(move: Move, lo: int, size: nat)
    requires Within(move, lo, size) && !MeetsTwice(move)
    ensures After(move, size).None?
  {
    if After(move, size).Some? {
      var met := Trace(move, size + 1);
      forall i, j | 0 <= i < j < |met| ensures met[i] != met[j] {
        assert !Meet(move, i, j);
      }
      Distinct(met);
      forall i | 0 <= i < |met| ensures met[i] in Interval(lo, size) {
        AfterWithin(move, lo, size, i);
      }
      SubsetSize((set x | x in met), Interval(lo, size));
    }
  }

  /**
   A loop over finitely many positions ends exactly if no turn starts where
   another did, and then within as many turns.
   */
  lemma EndsExactly(move: Move, lo: int, size: nat)
    requires Within(move, lo, size)
    ensures Ends(move) <==> !MeetsTwice(move)
    ensures Ends(move) <==> After(move, size).None?
  {
    if MeetsTwice(move) {
      var i: nat, j: nat :| Meet(move, i, j);
      forall n: nat ensures After(move, n).Some? {
        MeetingGoesOn(move, i, j, n);
      }
    } else {
      EndsInTime(move, lo, size);
    }
  }

  // ----- loops that never move back

  ghost predicate NeverBack(move: Move) {
    forall n: nat | After(move, n).Some? && After(move, n + 1).Some? :: After(move, n).value <= After(move, n + 1).value
  }

  ghost predicate StaysPut(move: Move, n: nat) {
    After(move, n).Some? && After(move, n + 1) == After(move, n)
  }

  lemma {:induction false} MovesOn(move: Move, n: nat)
    requires NeverBack(move) && forall k: nat :: !StaysPut(move, k)
    ensures After(move, n).Some? ==> After(move, n).value >= n
  {
    if n > 0 && After(move, n).Some? {
      MovesOn(move, n - 1);
      assert !StaysPut(move, n - 1);
    }
  }

  /** One that never moves back ends exactly if no turn stays put. */
  lemma EndsForward(move: Move, lo: int, size: nat)
    requires Within(move, lo, size) && NeverBack(move)
    ensures Ends(move) <==> forall n: nat :: !StaysPut(move, n)
  {
    if n: nat :| StaysPut(move, n) {
      assert Meet(move, n, n + 1);
      EndsExactly(move, lo, size);
    } else {
      MovesOn(move, size);
      AfterWithin(move, lo, size, size);
    }
  }

  // ----- how many turns

  /** The number of turns that start a further one, counted up to `n`. */
  function Done(move: Move, n: nat): (d: nat)
    ensures d <= n && After(move, d).Some? && (d < n ==> After(move, d + 1).None?)
  {
    if n == 0 then 0
    else
      var d := Done(move, n - 1);
      if After(move, n).Some? then StartedBefore(move, n); n else d
  }

  lemma DoneIs(move: Move, n: nat, d: nat)
    requires After(move, d).Some? && After(move, d + 1).None? && After(move, n).None?
    ensures Done(move, n) == d
  {
    if n <= d {
      StaysEnded(move, n, d);
    } else if Done(move, n) < d {
      StaysEnded(move, Done(move, n) + 1, d);
    } else if Done(move, n) > d {
      StaysEnded(move, d + 1, Done(move, n));
    }
  }

  /** What `f` gives for every position of a trace. */
  function Mapped<T>(f: int -> T, s: seq<int>): (r: seq<T>)
    ensures |r| == |s|
  {
    if s == [] then [] else Mapped(f, s[..|s| - 1]) + [f(s[|s| - 1])]
  }

  lemma MappedSnoc<T>(f: int -> T, s: seq<int>, x: int)
    ensures Mapped(f, s + [x]) == Mapped(f, s) + [f(x)]
  {
    assert (s + [x])[..|s|] == s;
  }

  /** What `f` gives for the positions at which the first `n` turns start. */
  function Yield<T>(move: Move, f: int -> T, n: nat): (r: seq<T>)
    requires After(move, n).Some?
    ensures |r| == n
  {
    StartedBefore(move, n);
    Mapped(f, Trace(move, n))
  }

  lemma YieldNext<T>(move: Move, f: int -> T, n: nat, off: int)
    requires After(move, n) == Some(off) && move(off).Some?
    ensures After(move, n + 1) == move(off) && Yield(move, f, n + 1) == Yield(move, f, n) + [f(off)]
  {
    TraceNext(move, n);
    MappedSnoc(f, Trace(move, n), off);
  }

  /** Step `i` along `offs`, where `f` gives `ts`. */
  ghost predicate StepAlong<T(!new)>(move: Move, f: int -> T, offs: seq<int>, ts: seq<T>, i: nat)
    requires i < |ts| && |offs| == |ts| + 1
  {
    move(offs[i]) == Some(offs[i + 1]) && f(offs[i]) == ts[i]
  }

  /** A loop of which each step is along `offs` follows them. */
  lemma {:induction false} Follows<T(!new)>(move: Move, f: int -> T, offs: seq<int>, ts: seq<T>, n: nat)
    requires n <= |ts| && |offs| == |ts| + 1 && offs[0] == 0
    requires forall i | 0 <= i < |ts| :: StepAlong(move, f, offs, ts, i)
    ensures After(move, n) == Some(offs[n]) && Yield(move, f, n) == ts[..n]
    decreases n
  {
    if n > 0 {
      Follows(move, f, offs, ts, n - 1);
      var i := n - 1;
      assert StepAlong(move, f, offs, ts, i);
      YieldNext(move, f, i, offs[i]);
    }
  }
}
