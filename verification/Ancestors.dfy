/**
 Write-once parent pointers between frames: chains, shared ancestors, and what stays true of them
 while the forest grows.
 */
module Ancestors {
  import opened Wrappers

  /** The parent of every known frame, if it has one yet. */
  type Parents = map<string, Option<string>>

  function ParentOf(t: Parents, x: string): (p: Option<string>)
  {
    if x in t then t[x] else None
  }

  /** The frame k steps above x. */
  function Up(t: Parents, x: string, k: nat): (y: Option<string>)
  {
    if k == 0 then Some(x)
    else match Up(t, x, k - 1)
         case None => None
         case Some(y) => ParentOf(t, y)
  }

  /** The chain of x ends; otherwise it runs into a loop. */
  ghost predicate Rooted(t: Parents, x: string)
  {
    exists k: nat :: Up(t, x, k) == None
  }

  /** a is x or above x. */
  ghost predicate Above(t: Parents, a: string, x: string)
  {
    exists k: nat :: Up(t, x, k) == Some(a)
  }

  // ---------- Chains ----------

  lemma {:induction false} UpUp(t: Parents, x: string, i: nat, j: nat)
    requires Up(t, x, i).Some?
    ensures Up(t, x, i + j) == Up(t, Up(t, x, i).value, j)
    decreases j
  {
    if j != 0 {
      UpUp(t, x, i, j - 1);
    }
  }

  lemma {:induction false} UpPrefix(t: Parents, x: string, i: nat, j: nat)
    requires i <= j && Up(t, x, j).Some?
    ensures Up(t, x, i).Some?
    decreases j - i
  {
    if i < j {
      UpPrefix(t, x, i + 1, j);
    }
  }

  lemma AboveTrans(t: Parents, a: string, b: string, x: string)
    requires Above(t, a, b) && Above(t, b, x)
    ensures Above(t, a, x)
  {
    var i: nat :| Up(t, x, i) == Some(b);
    var j: nat :| Up(t, b, j) == Some(a);
    UpUp(t, x, i, j);
  }

  lemma AboveSelf(t: Parents, x: string)
    ensures Above(t, x, x)
  {
    assert Up(t, x, 0) == Some(x);
  }

  /** A frame above itself is on a loop that never ends. */
  lemma {:induction false} LoopNeverEnds(t: Parents, x: string, n: nat, k: nat)
    requires n > 0 && Up(t, x, n) == Some(x)
    ensures Up(t, x, k).Some?
    decreases k
  {
    if k < n {
      UpPrefix(t, x, k, n);
    } else {
      LoopNeverEnds(t, x, n, k - n);
      UpUp(t, x, n, k - n);
    }
  }

  lemma RootedUp(t: Parents, x: string, i: nat)
    requires Up(t, x, i).Some?
    ensures Rooted(t, x) <==> Rooted(t, Up(t, x, i).value)
  {
    var y := Up(t, x, i).value;
    if Rooted(t, x) {
      var k: nat :| Up(t, x, k) == None;
      if k < i { UpPrefix(t, x, k, i); }
      UpUp(t, x, i, k - i);
      assert Up(t, y, k - i) == None;
    }
    if Rooted(t, y) {
      var k: nat :| Up(t, y, k) == None;
      UpUp(t, x, i, k);
      assert Up(t, x, i + k) == None;
    }
  }

  /** On a chain that ends no frame comes twice. */
  lemma RootedDistinct(t: Parents, x: string, i: nat, j: nat)
    requires Rooted(t, x) && i < j && Up(t, x, i).Some?
    ensures Up(t, x, i) != Up(t, x, j)
  {
    if Up(t, x, i) == Up(t, x, j) {
      var y := Up(t, x, i).value;
      UpUp(t, x, i, j - i);
      RootedUp(t, x, i);
      var k: nat :| Up(t, y, k) == None;
      LoopNeverEnds(t, y, j - i, k);
    }
  }

  lemma AboveAntisym(t: Parents, a: string, b: string)
    requires Rooted(t, a) && Above(t, a, b) && Above(t, b, a)
    ensures a == b
  {
    var i: nat :| Up(t, a, i) == Some(b);
    var j: nat :| Up(t, b, j) == Some(a);
    UpUp(t, a, i, j);
    if i + j > 0 { RootedDistinct(t, a, 0, i + j); }
  }

  // ---------- Shared ancestors ----------

  /** The outcomes of the search; `Apart` is where the code dereferences a null node. */
  datatype SearchResult = Missing | Loop | Apart | Shared(ancestor: string)

  ghost predicate Common(t: Parents, from: string, to: string, c: string)
  {
    Above(t, c, from) && Above(t, c, to)
  }

  /** a is above both frames and below everything else that is. */
  ghost predicate Lowest(t: Parents, from: string, to: string, a: string)
  {
    Common(t, from, to, a) && forall c :: Common(t, from, to, c) ==> Above(t, c, a)
  }

  /** What the search is to find, said without a direction. */
  ghost predicate Finds(t: Parents, from: string, to: string, r: SearchResult)
  {
    match r
    case Missing => from !in t || to !in t
    case Loop => from in t && to in t && !(Rooted(t, from) && Rooted(t, to))
    case Apart => from in t && to in t && Rooted(t, from) && Rooted(t, to) && forall c :: !Common(t, from, to, c)
    case Shared(a) => from in t && to in t && Rooted(t, from) && Rooted(t, to) && Lowest(t, from, to, a)
  }

  lemma FindsSwapped(t: Parents, from: string, to: string, r: SearchResult)
    requires Finds(t, from, to, r)
    ensures Finds(t, to, from, r)
  {
    assert forall c :: Common(t, from, to, c) <==> Common(t, to, from, c);
  }

  /** The outcome is determined, and the same with the two frames swapped. */
  lemma FindsUnique(t: Parents, from: string, to: string, r: SearchResult, r': SearchResult)
    requires Finds(t, from, to, r) && (Finds(t, from, to, r') || Finds(t, to, from, r'))
    ensures r == r'
  {
    if Finds(t, to, from, r') { FindsSwapped(t, to, from, r'); }
    if r.Shared? && r'.Shared? {
      var a, b := r.ancestor, r'.ancestor;
      assert Above(t, a, b) && Above(t, b, a);
      var i: nat :| Up(t, from, i) == Some(a);
      RootedUp(t, from, i);
      AboveAntisym(t, a, b);
    }
  }

  // ---------- Growth ----------

  /** Frames are only added, and a parent once set stays. */
  ghost predicate Extends(t: Parents, t': Parents)
  {
    t.Keys <= t'.Keys && forall x :: x in t && t[x].Some? ==> t'[x] == t[x]
  }

  lemma {:induction false} UpExtends(t: Parents, t': Parents, x: string, k: nat)
    requires Extends(t, t') && Up(t, x, k).Some?
    ensures Up(t', x, k) == Up(t, x, k)
  {
    if k != 0 {
      UpExtends(t, t', x, k - 1);
    }
  }

  lemma AboveExtends(t: Parents, t': Parents, a: string, x: string)
    requires Extends(t, t') && Above(t, a, x)
    ensures Above(t', a, x)
  {
    var k: nat :| Up(t, x, k) == Some(a);
    UpExtends(t, t', x, k);
  }

  /** A frame above both in the grown forest is above the old shared ancestor, as long as chains end. */
  lemma StaysLowest(t: Parents, t': Parents, from: string, to: string, a: string, c: string)
    requires Extends(t, t') && Lowest(t, from, to, a) && Rooted(t', from) && Common(t', from, to, c)
    ensures Above(t', c, a)
  {
    var i: nat :| Up(t, from, i) == Some(a);
    var j: nat :| Up(t, to, j) == Some(a);
    UpExtends(t, t', from, i);
    UpExtends(t, t', to, j);
    var p: nat :| Up(t', from, p) == Some(c);
    var q: nat :| Up(t', to, q) == Some(c);
    if p >= i {
      UpUp(t', from, i, p - i);
    } else if q >= j {
      UpUp(t', to, j, q - j);
    } else {
      UpPrefix(t, from, p, i);
      UpPrefix(t, to, q, j);
      UpExtends(t, t', from, p);
      UpExtends(t, t', to, q);
      assert Common(t, from, to, c);
      AboveExtends(t, t', c, a);
    }
  }

  /**
   A shared ancestor found once is what a fresh search finds in any grown forest, if and only if the
   chains still end there; where they do not, a fresh search reports the loop.
   */
  lemma CacheAgrees(t: Parents, t': Parents, from: string, to: string, a: string)
    requires Extends(t, t') && Finds(t, from, to, Shared(a))
    ensures Finds(t', from, to, Shared(a)) <==> Rooted(t', from)
    ensures !Rooted(t', from) ==> Finds(t', from, to, Loop)
  {
    AboveExtends(t, t', a, from);
    AboveExtends(t, t', a, to);
    var i: nat :| Up(t', from, i) == Some(a);
    var j: nat :| Up(t', to, j) == Some(a);
    RootedUp(t', from, i);
    RootedUp(t', to, j);
    if Rooted(t', from) {
      forall c | Common(t', from, to, c) ensures Above(t', c, a)
      {
        StaysLowest(t, t', from, to, a, c);
      }
    }
  }
}
