/** Flattening a sequence of sequences, the way nested `for` loops visit a list of lists. */
module Seqs {

  /** All inner sequences joined in order. Defined by its last element, as a loop builds it. */
  function Concat<T>(ss: seq<seq<T>>): seq<T>
    decreases |ss|
  {
    if ss == [] then [] else Concat(ss[..|ss| - 1]) + ss[|ss| - 1]
  }

  /** Flattening distributes over concatenation of the outer sequence. */
  lemma {:induction false} ConcatAppend<T>(a: seq<seq<T>>, b: seq<seq<T>>)
    ensures Concat(a + b) == Concat(a) + Concat(b)
    decreases |b|
  {
    if b == [] {
      assert a + b == a;
    } else {
      var b', last := b[..|b| - 1], b[|b| - 1];
      assert (a + b)[..|a + b| - 1] == a + b';
      calc {
        Concat(a + b);
        Concat(a + b') + last;
        { ConcatAppend(a, b'); }
        (Concat(a) + Concat(b')) + last;
        Concat(a) + (Concat(b') + last);
      }
    }
  }

  /** Extending one inner sequence by one element makes the flattening one longer. */
  lemma {:induction false} ConcatExtendOne<T>(ss: seq<seq<T>>, m: nat, x: T)
    requires m < |ss|
    ensures |Concat(ss[m := ss[m] + [x]])| == |Concat(ss)| + 1
    decreases |ss|
  {
    var ss' := ss[m := ss[m] + [x]];
    var n := |ss| - 1;
    if m == n {
      assert ss'[..n] == ss[..n];
    } else {
      assert ss'[..n] == ss[..n][m := ss[..n][m] + [x]];
      ConcatExtendOne(ss[..n], m, x);
    }
  }
}
