/**
 The key under which the transform tree caches the shared ancestor of two frames: their names,
 the greater one first, joined by a colon.
 */
module FrameNames {

  /** The order of `std::string`. */
  predicate Less(a: string, b: string)
  {
    b != [] && (a == [] || a[0] < b[0] || (a[0] == b[0] && Less(a[1..], b[1..])))
  }

  function Token(from: string, to: string): (key: string)
  {
    if Less(to, from) then from + ":" + to else to + ":" + from
  }

  predicate ColonFree(name: string)
  {
    ':' !in name
  }

  lemma {:induction false} LessTotal(a: string, b: string)
    ensures Less(a, b) || Less(b, a) || a == b
    ensures !(Less(a, b) && Less(b, a))
  {
    if a != [] && b != [] {
      LessTotal(a[1..], b[1..]);
      if a[0] == b[0] && a[1..] == b[1..] {
        assert a == [a[0]] + a[1..] == b;
      }
    }
  }

  /** The first character in which two names differ decides, and a name comes before its extensions. */
  lemma {:induction false} LessIs(a: string, b: string, k: nat)
    requires k <= |a| && k <= |b| && a[..k] == b[..k] && (k < |a| && k < |b| ==> a[k] != b[k])
    ensures Less(a, b) <==> k < |b| && (k < |a| ==> a[k] < b[k])
  {
    if k > 0 {
      assert a[0] == a[..k][0] == b[..k][0] == b[0];
      assert a[1..][..k - 1] == a[..k][1..] == b[..k][1..] == b[1..][..k - 1];
      LessIs(a[1..], b[1..], k - 1);
    }
  }

  lemma {:induction false} LessTrans(a: string, b: string, c: string)
    requires Less(a, b) && Less(b, c)
    ensures Less(a, c)
  {
    if a != [] && a[0] == b[0] == c[0] {
      LessTrans(a[1..], b[1..], c[1..]);
    }
  }

  lemma {:induction false} LessLonger(a: string, x: string)
    requires x != []
    ensures Less(a, a + x)
  {
    if a != [] {
      LessLonger(a[1..], x);
      assert (a + x)[1..] == a[1..] + x;
    }
  }

  /** The key does not depend on the direction, and has the two names with a colon between. */
  lemma TokenSymmetric(a: string, b: string)
    ensures Token(a, b) == Token(b, a)
    ensures Token(a, b) == a + ":" + b || Token(a, b) == b + ":" + a
  {
    LessTotal(a, b);
  }

  /** A colon-free word in front of a colon is found again. */
  lemma {:induction false} FirstColon(x: string, y: string, u: string, v: string)
    requires ColonFree(x) && ColonFree(y) && x + ":" + y == u + ":" + v
    ensures x == u && y == v
    decreases |x|
  {
    var s := x + ":" + y;
    assert s[|u|] == ':' && s[|x|] == ':';
    if x == [] {
      assert forall i :: 1 <= i < |s| ==> s[i] == y[i - 1];
      assert u == [];
      assert s[1..] == y && (u + ":" + v)[1..] == v;
    } else {
      assert s[0] == x[0];
      assert u != [] && s[0] == u[0];
      assert x[1..] + ":" + y == s[1..] == u[1..] + ":" + v;
      FirstColon(x[1..], y, u[1..], v);
      assert x == [s[0]] + x[1..] == u;
    }
  }

  /** The key of two colon-free names is the key of no other pair of names, with or without colons. */
  lemma TokenInjective(a: string, b: string, c: string, d: string)
    requires ColonFree(a) && ColonFree(b) && Token(a, b) == Token(c, d)
    ensures (a == c && b == d) || (a == d && b == c)
  {
    var x := if Less(b, a) then (a, b) else (b, a);
    var u := if Less(d, c) then (c, d) else (d, c);
    FirstColon(x.0, x.1, u.0, u.1);
  }

  /** The key of two names is the key of no other pair. */
  ghost predicate Unique(a: string, b: string)
  {
    forall c, d :: Token(c, d) == Token(a, b) ==> (a == c && b == d) || (a == d && b == c)
  }

  /** The key can be cut at a colon other than the joining one into names in the key's order. */
  predicate CutsOtherwise(a: string, b: string)
  {
    var key := Token(a, b);
    exists j :: 0 <= j < |key| && CutAt(key, j) && j != |if Less(b, a) then a else b|
  }

  predicate CutAt(key: string, j: nat)
    requires j < |key|
  {
    key[j] == ':' && !Less(key[..j], key[j + 1..])
  }

  /** Exactly when a pair has its key for itself. */
  lemma UniqueIff(a: string, b: string)
    ensures Unique(a, b) <==> !CutsOtherwise(a, b)
  {
    var key := Token(a, b);
    if j :| 0 <= j < |key| && CutAt(key, j) && j != |if Less(b, a) then a else b| {
      CutCollides(a, b, j);
    }
    forall c, d | Token(c, d) == key && !CutsOtherwise(a, b) ensures (a == c && b == d) || (a == d && b == c) {
      OtherPairCuts(a, b, c, d);
    }
  }

  lemma CutCollides(a: string, b: string, j: nat)
    requires j < |Token(a, b)| && CutAt(Token(a, b), j) && j != |if Less(b, a) then a else b|
    ensures !Unique(a, b)
  {
    var key := Token(a, b);
    var c, d := key[..j], key[j + 1..];
    Rejoined(key, j);
    Ordered(c, d);
    LessTotal(a, b);
  }

  lemma Rejoined(key: string, j: nat)
    requires j < |key| && key[j] == ':'
    ensures key == key[..j] + ":" + key[j + 1..]
  {
  }

  lemma Ordered(c: string, d: string)
    requires !Less(c, d)
    ensures Token(c, d) == c + ":" + d
  {
    LessTotal(c, d);
  }

  lemma OtherPairCuts(a: string, b: string, c: string, d: string)
    requires Token(c, d) == Token(a, b) && !CutsOtherwise(a, b)
    ensures (a == c && b == d) || (a == d && b == c)
  {
    var key := Token(a, b);
    var x := if Less(b, a) then (a, b) else (b, a);
    var u := if Less(d, c) then (c, d) else (d, c);
    LessTotal(c, d);
    assert key == u.0 + ":" + u.1 == x.0 + ":" + x.1;
    assert key[..|u.0|] == u.0 && key[|u.0| + 1..] == u.1 && key[|u.0|] == ':';
    assert CutAt(key, |u.0|);
    assert key[..|x.0|] == x.0 && key[|x.0| + 1..] == x.1;
  }

  /** Two names out of a pair with the pair's key are the pair. */
  lemma SameNames(a: string, b: string, c: string, d: string)
    requires Token(a, b) == Token(c, d) && a in {c, d} && b in {c, d}
    ensures (a == c && b == d) || (a == d && b == c)
  {
    var x := if Less(b, a) then (a, b) else (b, a);
    var u := if Less(d, c) then (c, d) else (d, c);
    assert |a| + |b| == |c| + |d|;
    assert x.0 + ":" + x.1 == u.0 + ":" + u.1;
    if |x.0| == |u.0| {
      assert (x.0 + ":" + x.1)[..|x.0|] == x.0 && (u.0 + ":" + u.1)[..|u.0|] == u.0;
      assert (x.0 + ":" + x.1)[|x.0| + 1..] == x.1 && (u.0 + ":" + u.1)[|u.0| + 1..] == u.1;
    }
  }

  /** Exactly which names are safe with every colon-free partner: the colon-free ones. */
  lemma ColonFreeIff(name: string)
    ensures ColonFree(name) <==> forall other :: ColonFree(other) ==> Unique(name, other)
  {
    if ColonFree(name) {
      forall other, c, d | ColonFree(other) && Token(c, d) == Token(name, other)
        ensures (name == c && other == d) || (name == d && other == c)
      {
        TokenInjective(name, other, c, d);
      }
    } else {
      var other, c, d := ColonCollides(name);
      assert ColonFree(other) && !Unique(name, other);
    }
  }

  /** Every name with a colon shares its key with some colon-free name with another pair. */
  lemma ColonCollides(name: string) returns (other: string, c: string, d: string)
    requires !ColonFree(name)
    ensures ColonFree(other) && Token(name, other) == Token(c, d)
    ensures !(name == c && other == d) && !(name == d && other == c)
  {
    var i :| 0 <= i < |name| && name[i] == ':';
    var p, q := name[..i], name[i + 1..];
    assert name == p + ":" + q;
    // A name above both halves, and the same name with the first half moved over to it.
    other := AboveBoth(name, q);
    c, d := other + ":" + p, q;
    AboveLonger(q, other, ":" + p);
    assert c == other + (":" + p);
    KeyOf(name, other);
    KeyOf(d, c);
    Rejoin(other, p, q);
    LessTotal(c, d);
  }

  lemma Rejoin(x: string, p: string, q: string)
    ensures x + ":" + (p + ":" + q) == (x + ":" + p) + ":" + q
  {
  }

  /** The greatest character of a name, and one above the colon at least. */
  function Greatest(x: string): (g: char)
    ensures g > ':' && forall i :: 0 <= i < |x| ==> x[i] <= g
  {
    if x == [] then ';' else
      var g := Greatest(x[1..]);
      if x[0] > g then x[0] else g
  }

  function Repeated(g: char, n: nat): (x: string)
    ensures |x| == n && forall i :: 0 <= i < n ==> x[i] == g
  {
    seq(n, _ => g)
  }

  lemma {:induction false} BelowRepeated(x: string, g: char, n: nat)
    requires |x| < n && forall i :: 0 <= i < |x| ==> x[i] <= g
    ensures Less(x, Repeated(g, n))
  {
    if x != [] {
      BelowRepeated(x[1..], g, n - 1);
      assert Repeated(g, n)[1..] == Repeated(g, n - 1);
    }
  }

  lemma AboveBoth(x: string, y: string) returns (z: string)
    ensures Less(x, z) && Less(y, z) && ColonFree(z)
  {
    var g := Greatest(x + y);
    assert forall i :: 0 <= i < |x| ==> x[i] == (x + y)[i];
    assert forall i :: 0 <= i < |y| ==> y[i] == (x + y)[|x| + i];
    z := Repeated(g, |x| + |y| + 1);
    BelowRepeated(x, g, |z|);
    BelowRepeated(y, g, |z|);
  }

  lemma AboveLonger(x: string, y: string, z: string)
    requires Less(x, y) && z != []
    ensures Less(x, y + z)
  {
    LessLonger(y, z);
    LessTrans(x, y, y + z);
  }

  lemma KeyOf(x: string, y: string)
    requires Less(x, y)
    ensures Token(x, y) == y + ":" + x && Token(y, x) == y + ":" + x
  {
    LessTotal(x, y);
  }
}
