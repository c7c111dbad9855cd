/** Applying a function to every element of a sequence (Java's `for` over a list that builds a new one). */
module Seqs {

  function Apply<A, B>(f: A -> B, s: seq<A>): (r: seq<B>)
    ensures |r| == |s| && forall i :: 0 <= i < |s| ==> r[i] == f(s[i])
  {
    seq(|s|, i requires 0 <= i < |s| => f(s[i]))
  }

  lemma ApplyAppend<A, B>(f: A -> B, a: seq<A>, b: seq<A>)
    ensures Apply(f, a + b) == Apply(f, a) + Apply(f, b)
  {
    assert forall i :: 0 <= i < |a| ==> (a + b)[i] == a[i];
    assert forall i :: |a| <= i < |a + b| ==> (a + b)[i] == b[i - |a|];
  }

  lemma ApplyPrefix<A, B>(f: A -> B, s: seq<A>, i: nat)
    requires i < |s|
    ensures Apply(f, s[..i + 1]) == Apply(f, s[..i]) + [f(s[i])]
  {
  }

  lemma ApplyTail<A, B>(f: A -> B, s: seq<A>)
    requires s != []
    ensures Apply(f, s)[1..] == Apply(f, s[1..])
  {
  }
}
