/** The optional-value datatype used for the countdown's terminal marker and for parse results. */
module Wrappers {

  datatype Option<+T> = None | Some(value: T)

  lemma {:induction false} SomeInjective<T>(o: Option<T>, x: T, y: T)
    requires o == Some(x) && o == Some(y)
    ensures x == y
  {
  }
}

/**
  Facts about sequence concatenation, stated generically so that the solver
  proves them once instead of unfolding the element type (formatted strings).
*/
module SeqFacts {

  lemma {:induction false} AppendAssoc<T>(a: seq<T>, b: seq<T>, c: seq<T>)
    ensures (a + b) + c == a + (b + c)
  {
  }

  lemma {:induction false} ConsAt<T>(x: T, s: seq<T>, i: nat)
    requires 0 < i <= |s|
    ensures ([x] + s)[i] == s[i - 1]
  {
  }

  lemma {:induction false} Extensional<T>(a: seq<T>, b: seq<T>)
    requires |a| == |b|
    requires forall i :: 0 <= i < |a| ==> a[i] == b[i]
    ensures a == b
  {
  }

  lemma {:induction false} SnocAt<T>(s: seq<T>, x: T, i: nat)
    requires i <= |s|
    ensures (s + [x])[i] == if i < |s| then s[i] else x
  {
  }

  /** A sequence split around a separator that sits three places from the end. */
  lemma {:induction false} SplitAround<T>(a: seq<T>, sep: T, b: seq<T>)
    requires |b| == 2
    ensures var s := a + [sep] + b;
      |s| == |a| + 3 && s[|s| - 3] == sep && s[..|s| - 3] == a && s[|s| - 2..] == b
  {
    var s := a + [sep] + b;
    assert s[..|s| - 3] == a;
    assert s[|s| - 2..] == b;
  }
}
