/** Facts about sequences that proofs elsewhere name instead of leaving them to be found. */
module Sequences {

  lemma Assoc<T>(a: seq<T>, b: seq<T>, c: seq<T>)
    ensures (a + b) + c == a + (b + c)
  {
  }

  lemma Cut<T>(s: seq<T>, k: nat)
    requires k <= |s|
    ensures s[..k] + s[k..] == s
  {
  }

  lemma PrefixTrans<T>(s: seq<T>, t: seq<T>, k: nat)
    requires s <= t && k <= |s|
    ensures s[..k] == t[..k]
  {
  }

  lemma Slice<T>(s: seq<T>, k: nat, i: nat, j: nat)
    requires i <= j && k + j <= |s|
    ensures s[k..][i..j] == s[k + i..k + j]
    ensures s[k..][j..] == s[k + j..]
  {
  }

  /** A common prefix can be dropped. */
  lemma Cancel<T>(a: seq<T>, x: seq<T>, y: seq<T>)
    ensures a + x == a + y ==> x == y
    ensures a + x <= a + y ==> x <= y
  {
    assert (a + x)[|a|..] == x && (a + y)[|a|..] == y;
    if a + x <= a + y {
      assert forall i :: 0 <= i < |x| ==> x[i] == (a + x)[|a| + i] == (a + y)[|a| + i] == y[i];
    }
  }

  /** And so can a common end. */
  lemma CancelEnd<T>(a: seq<T>, b: seq<T>, x: seq<T>)
    ensures a + x == b + x ==> a == b
  {
    if a + x == b + x {
      assert a == (a + x)[..|a|] && b == (b + x)[..|b|];
    }
  }

  /** The first element of one sequence moves to the end of the other. */
  lemma Shift<T>(a: seq<T>, b: seq<T>)
    requires b != []
    ensures a + b == (a + [b[0]]) + b[1..]
  {
  }
}
