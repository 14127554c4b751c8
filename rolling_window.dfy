/**
 * The fixed-capacity rolling window shared by the price graph and the price
 * table: every tick appends the newest sample and keeps only the last `cap`
 * elements, the JavaScript idiom `[...prev, x].slice(-cap)`.
 */
module RollingWindow {

  function Min(a: int, b: int): int {
    if a <= b then a else b
  }

  /** The last `n` elements of `s`, or all of `s` when it is shorter:
      JavaScript's `s.slice(-n)` for a positive `n`. */
  function LastN<T>(s: seq<T>, n: nat): (r: seq<T>)
    requires n > 0
    ensures |r| == Min(n, |s|)
    ensures forall i :: 0 <= i < |r| ==> r[i] == s[|s| - |r| + i]
  {
    if |s| <= n then s else s[|s| - n..]
  }

  /** One tick of a rolling window of capacity `cap`: `[...xs, x].slice(-cap)`. */
  function AppendWindow<T>(xs: seq<T>, x: T, cap: nat): (r: seq<T>)
    requires cap > 0
    ensures |r| == Min(cap, |xs| + 1)
    ensures r[|r| - 1] == x
    ensures forall i :: 0 <= i < |r| - 1 ==> r[i] == xs[|xs| + 1 - |r| + i]
  {
    LastN(xs + [x], cap)
  }

  /** While the window is not full nothing is dropped. */
  lemma AppendWindowNotFull<T>(xs: seq<T>, x: T, cap: nat)
    requires 0 < cap && |xs| < cap
    ensures AppendWindow(xs, x, cap) == xs + [x]
  {
  }

  /** Once the window is full exactly the oldest element is dropped. */
  lemma AppendWindowFull<T>(xs: seq<T>, x: T, cap: nat)
    requires 0 < cap && |xs| == cap
    ensures AppendWindow(xs, x, cap) == xs[1..] + [x]
  {
    assert (xs + [x])[1..] == xs[1..] + [x];
  }

  /** Appending to the last `cap` elements of a run gives the last `cap`
      elements of the longer run: the window forgets nothing it still needs. */
  lemma {:induction false} AppendToLastN<T>(s: seq<T>, x: T, cap: nat)
    requires cap > 0
    ensures AppendWindow(LastN(s, cap), x, cap) == LastN(s + [x], cap)
  {
    if |s| >= cap {
      var w := s[|s| - cap..];
      assert LastN(s, cap) == w;
      calc {
        AppendWindow(w, x, cap);
        LastN(w + [x], cap);
        (w + [x])[1..];
        { assert (w + [x])[1..] == s[|s| - cap + 1..] + [x]; }
        s[|s| + 1 - cap..] + [x];
        { assert (s + [x])[|s| + 1 - cap..] == s[|s| + 1 - cap..] + [x]; }
        (s + [x])[|s| + 1 - cap..];
        LastN(s + [x], cap);
      }
    }
  }

  /** The window after pushing every element of `pushes`, in order, into an
      initially empty window of capacity `cap`. */
  function Pushed<T>(pushes: seq<T>, cap: nat): seq<T>
    requires cap > 0
  {
    if pushes == [] then []
    else AppendWindow(Pushed(pushes[..|pushes| - 1], cap), pushes[|pushes| - 1], cap)
  }

  /** After any run of pushes the window holds exactly the last `cap` pushed
      elements (all of them when fewer were pushed), in push order. */
  lemma {:induction false} PushedIsLastN<T>(pushes: seq<T>, cap: nat)
    requires cap > 0
    ensures Pushed(pushes, cap) == LastN(pushes, cap)
    ensures |Pushed(pushes, cap)| == Min(cap, |pushes|)
  {
    if pushes != [] {
      var init := pushes[..|pushes| - 1];
      var x := pushes[|pushes| - 1];
      assert init + [x] == pushes;
      calc {
        Pushed(pushes, cap);
        AppendWindow(Pushed(init, cap), x, cap);
        { PushedIsLastN(init, cap); }
        AppendWindow(LastN(init, cap), x, cap);
        { AppendToLastN(init, x, cap); }
        LastN(pushes, cap);
      }
    }
  }
}
