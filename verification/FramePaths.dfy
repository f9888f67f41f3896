/** Transforms along chains of frames, and what a lookup between two frames comes to. */
module FramePaths {
  import opened Wrappers
  import opened Ancestors
  import opened Groups

  /** The transform to the parent that each frame offers the lookup; a frame without one is absent. */
  type Poses<G> = map<string, G>

  /** Climbing n steps from x, each pose multiplied on to the start from the left. */
  ghost function ClimbFrom<G(!new)>(g: Group<G>, t: Parents, poses: Poses<G>, x: string, n: nat, start: G)
    : (p: Option<G>)
  {
    if n == 0 then Some(start)
    else
      match (ClimbFrom(g, t, poses, x, n - 1, start), Up(t, x, n - 1))
      case (Some(acc), Some(y)) => if y in poses then Some(g.mul(poses[y], acc)) else None
      case _ => None
  }

  ghost function Climb<G(!new)>(g: Group<G>, t: Parents, poses: Poses<G>, x: string, n: nat): (p: Option<G>)
  {
    ClimbFrom(g, t, poses, x, n, g.id)
  }

  /** The product of two results, if both exist. */
  ghost function Times<G(!new)>(g: Group<G>, a: Option<G>, b: Option<G>): (p: Option<G>)
  {
    if a.Some? && b.Some? then Some(g.mul(a.value, b.value)) else None
  }

  lemma {:induction false} ClimbOn<G(!new)>(
    g: Group<G>, t: Parents, poses: Poses<G>, x: string, n: nat, m: nat, start: G, mid: G)
    requires Up(t, x, n).Some? && ClimbFrom(g, t, poses, x, n, start) == Some(mid)
    ensures ClimbFrom(g, t, poses, x, n + m, start) == ClimbFrom(g, t, poses, Up(t, x, n).value, m, mid)
    decreases m
  {
    if m != 0 {
      ClimbOn(g, t, poses, x, n, m - 1, start, mid);
      UpUp(t, x, n, m - 1);
    }
  }

  lemma {:induction false} ClimbFails<G(!new)>(
    g: Group<G>, t: Parents, poses: Poses<G>, x: string, i: nat, n: nat, start: G)
    requires i <= n && ClimbFrom(g, t, poses, x, i, start) == None
    ensures ClimbFrom(g, t, poses, x, n, start) == None
    decreases n - i
  {
    if i < n {
      ClimbFails(g, t, poses, x, i + 1, n, start);
    }
  }

  /** The start comes out on the right. */
  lemma {:induction false} ClimbTimes<G(!new)>(g: Group<G>, t: Parents, poses: Poses<G>, x: string, n: nat, start: G)
    requires g.Laws()
    ensures ClimbFrom(g, t, poses, x, n, start) == Times(g, Climb(g, t, poses, x, n), Some(start))
  {
    assert g.UnitAt(start);
    if n != 0 {
      ClimbTimes(g, t, poses, x, n - 1, start);
      match (Climb(g, t, poses, x, n - 1), Up(t, x, n - 1))
      case (Some(acc), Some(y)) =>
        if y in poses { assert g.AssocAt(poses[y], acc, start); }
      case _ =>
    }
  }

  /** The number of steps after which x first reaches a. */
  ghost function StepsTo(t: Parents, x: string, a: string): (n: nat)
    requires Above(t, a, x)
    ensures Up(t, x, n) == Some(a) && forall m: nat :: m < n ==> Up(t, x, m) != Some(a)
  {
    var k: nat :| Up(t, x, k) == Some(a);
    Least(t, x, a, k)
  }

  ghost function Least(t: Parents, x: string, a: string, k: nat): (n: nat)
    requires Up(t, x, k) == Some(a)
    ensures Up(t, x, n) == Some(a) && forall m: nat :: m < n ==> Up(t, x, m) != Some(a)
  {
    if m: nat :| m < k && Up(t, x, m) == Some(a) then Least(t, x, a, m) else k
  }

  /** The pose of x as seen from a frame above it. */
  ghost function PoseIn<G(!new)>(g: Group<G>, t: Parents, poses: Poses<G>, x: string, a: string): (p: Option<G>)
    requires Above(t, a, x)
  {
    Climb(g, t, poses, x, StepsTo(t, x, a))
  }

  /** The two loops of `get_transform` with the ancestor a. */
  ghost function LookupLoops<G(!new)>(g: Group<G>, t: Parents, poses: Poses<G>, from: string, to: string, a: string)
    : (p: Option<G>)
    requires Above(t, a, from) && Above(t, a, to)
  {
    match ClimbFrom(g, t, poses, from, StepsTo(t, from, a), g.id)
    case None => None
    case Some(f) => ClimbFrom(g, t, poses, to, StepsTo(t, to, a), g.inv(f))
  }

  // ---------- Climbing to any frame ----------

  /** A climb reaches the frame, stops at one without a pose, or goes round for ever. */
  datatype Climbed<G> = Reached(value: G) | Stopped | Endless

  /** Some frame on the chain of x offers no pose. */
  ghost predicate Blocked<G>(t: Parents, poses: Poses<G>, x: string)
  {
    exists k: nat :: Up(t, x, k).Some? && Up(t, x, k).value !in poses
  }

  /** Climbing from x to a, whether it is above x or not. */
  ghost function ClimbTo<G(!new)>(g: Group<G>, t: Parents, poses: Poses<G>, x: string, a: string, start: G)
    : (c: Climbed<G>)
  {
    if Above(t, a, x) then
      match ClimbFrom(g, t, poses, x, StepsTo(t, x, a), start)
      case Some(v) => Reached(v)
      case None => Stopped
    else if Blocked(t, poses, x) then Stopped
    else Endless
  }

  /** A loop is all there is above it. */
  lemma {:induction false} LoopCovers(t: Parents, x: string, i: nat, j: nat, k: nat) returns (m: nat)
    requires i < j && Up(t, x, i).Some? && Up(t, x, i) == Up(t, x, j)
    ensures m < j && Up(t, x, k) == Up(t, x, m)
    decreases k
  {
    if k < j {
      m := k;
    } else {
      var before := LoopCovers(t, x, i, j, k - 1);
      UpPrefix(t, x, before, j);
      m := if before + 1 < j then before + 1 else i;
    }
  }

  /** What they come to: the pose of `to` times the inverse of that of `from`. */
  ghost function LookupVia<G(!new)>(g: Group<G>, t: Parents, poses: Poses<G>, from: string, to: string, a: string)
    : (p: Option<G>)
    requires Above(t, a, from) && Above(t, a, to)
  {
    var f := PoseIn(g, t, poses, from, a);
    var p := PoseIn(g, t, poses, to, a);
    if f.Some? && p.Some? then Some(g.mul(p.value, g.inv(f.value))) else None
  }

  /** The loops compute the quotient. */
  lemma LoopsAreQuotient<G(!new)>(g: Group<G>, t: Parents, poses: Poses<G>, from: string, to: string, a: string)
    requires g.Laws() && Above(t, a, from) && Above(t, a, to)
    ensures LookupLoops(g, t, poses, from, to, a) == LookupVia(g, t, poses, from, to, a)
  {
    var f := PoseIn(g, t, poses, from, a);
    if f.Some? {
      ClimbTimes(g, t, poses, to, StepsTo(t, to, a), g.inv(f.value));
    }
  }

  /** Swapping the frames gives the inverse, and succeeds on the same inputs. */
  lemma LookupSwapped<G(!new)>(g: Group<G>, t: Parents, poses: Poses<G>, from: string, to: string, a: string)
    requires g.Laws() && Above(t, a, from) && Above(t, a, to)
    ensures var p, q := LookupVia(g, t, poses, from, to, a), LookupVia(g, t, poses, to, from, a);
      (p.Some? <==> q.Some?) && (p.Some? ==> q.value == g.inv(p.value))
  {
    var f := PoseIn(g, t, poses, from, a);
    var p := PoseIn(g, t, poses, to, a);
    if f.Some? && p.Some? {
      InvOfQuotient(g, p.value, f.value);
    }
  }

  /** The pose of `to` in the coordinates of `from`. */
  ghost function RelativePose<G(!new)>(g: Group<G>, t: Parents, poses: Poses<G>, from: string, to: string, a: string)
    : (p: Option<G>)
    requires Above(t, a, from) && Above(t, a, to)
  {
    var f := PoseIn(g, t, poses, from, a);
    var p := PoseIn(g, t, poses, to, a);
    if f.Some? && p.Some? then Some(g.mul(g.inv(f.value), p.value)) else None
  }

  /** A lookup is that pose exactly when the two poses commute; one of them being the identity, as
      between a frame and one below it, is enough. */
  lemma RelativeIffCommute<G(!new)>(g: Group<G>, t: Parents, poses: Poses<G>, from: string, to: string, a: string)
    requires g.Laws() && Above(t, a, from) && Above(t, a, to)
    requires PoseIn(g, t, poses, from, a).Some? && PoseIn(g, t, poses, to, a).Some?
    ensures LookupVia(g, t, poses, from, to, a) == RelativePose(g, t, poses, from, to, a)
      <==> var f, p := PoseIn(g, t, poses, from, a).value, PoseIn(g, t, poses, to, a).value;
           g.mul(f, p) == g.mul(p, f)
  {
    CommuteIff(g, PoseIn(g, t, poses, from, a).value, PoseIn(g, t, poses, to, a).value);
  }

  lemma CommuteIff<G(!new)>(g: Group<G>, f: G, p: G)
    requires g.Laws()
    ensures g.mul(p, g.inv(f)) == g.mul(g.inv(f), p) <==> g.mul(f, p) == g.mul(p, f)
  {
    var f' := g.inv(f);
    assert g.InverseAt(f) && g.UnitAt(p) && g.UnitAt(g.mul(p, f')) && g.UnitAt(g.mul(f, p));
    if g.mul(p, f') == g.mul(f', p) {
      // f p = f (p f') f = f (f' p) f = p f
      assert g.AssocAt(g.mul(f, p), f', f) && g.AssocAt(f, p, f') && g.AssocAt(f, f', p);
    }
    if g.mul(f, p) == g.mul(p, f) {
      // p f' = f' (f p) f' = f' (p f) f' = f' p
      assert g.AssocAt(f', f, g.mul(p, f')) && g.AssocAt(f, p, f') && g.AssocAt(p, f, f');
      assert g.UnitAt(g.mul(p, f'));
    }
  }

  lemma PoseInSelf<G(!new)>(g: Group<G>, t: Parents, poses: Poses<G>, x: string)
    ensures Above(t, x, x) && PoseIn(g, t, poses, x, x) == Some(g.id)
  {
    AboveSelf(t, x);
    assert Up(t, x, 0) == Some(x);
    assert StepsTo(t, x, x) == 0;
  }

  /** A frame above another is their shared ancestor. */
  lemma AncestorIsShared(t: Parents, a: string, x: string)
    requires a in t && x in t && Rooted(t, x) && Above(t, a, x)
    ensures Finds(t, a, x, Shared(a))
  {
    AboveSelf(t, a);
    var k: nat :| Up(t, x, k) == Some(a);
    RootedUp(t, x, k);
  }

  /** From a frame to one below it the lookup is the plain product of the poses on the path. */
  lemma LookupDown<G(!new)>(g: Group<G>, t: Parents, poses: Poses<G>, a: string, x: string)
    requires g.Laws() && Above(t, a, x)
    ensures Above(t, a, a) && LookupVia(g, t, poses, a, x, a) == PoseIn(g, t, poses, x, a)
  {
    PoseInSelf(g, t, poses, a);
    InvId(g);
    var p := PoseIn(g, t, poses, x, a);
    if p.Some? { assert g.UnitAt(p.value); }
  }

  /** Through a frame above the shared ancestor a lookup gives the same transform, seen from that frame. */
  lemma LookupHigher<G(!new)>(
    g: Group<G>, t: Parents, poses: Poses<G>, from: string, to: string, a: string, b: string)
    requires g.Laws() && Rooted(t, from) && Rooted(t, to)
    requires Above(t, a, b) && Above(t, b, from) && Above(t, b, to) && PoseIn(g, t, poses, b, a).Some?
    ensures Above(t, a, from) && Above(t, a, to)
    ensures var q := PoseIn(g, t, poses, b, a).value;
      LookupVia(g, t, poses, from, to, a) == match LookupVia(g, t, poses, from, to, b)
        case None => None
        case Some(p) => Some(g.mul(q, g.mul(p, g.inv(q))))
  {
    AboveTrans(t, a, b, from);
    AboveTrans(t, a, b, to);
    PoseChain(g, t, poses, a, b, from);
    PoseChain(g, t, poses, a, b, to);
    var q := PoseIn(g, t, poses, b, a).value;
    var f, p := PoseIn(g, t, poses, from, b), PoseIn(g, t, poses, to, b);
    if f.Some? && p.Some? {
      Conjugate(g, q, p.value, f.value);
    }
  }

  /** Lookups compose along any chain of ancestors. */
  lemma LookupChain<G(!new)>(g: Group<G>, t: Parents, poses: Poses<G>, a: string, b: string, x: string)
    requires g.Laws() && Rooted(t, x) && Above(t, a, b) && Above(t, b, x)
    ensures Above(t, a, x) && Above(t, a, a) && Above(t, b, b)
    ensures LookupVia(g, t, poses, a, x, a)
         == Times(g, LookupVia(g, t, poses, a, b, a), LookupVia(g, t, poses, b, x, b))
  {
    AboveTrans(t, a, b, x);
    LookupDown(g, t, poses, a, x);
    LookupDown(g, t, poses, a, b);
    LookupDown(g, t, poses, b, x);
    PoseChain(g, t, poses, a, b, x);
  }

  /** The poses on a path are those on its upper part times those on its lower part. */
  lemma PoseChain<G(!new)>(g: Group<G>, t: Parents, poses: Poses<G>, a: string, b: string, x: string)
    requires g.Laws() && Rooted(t, x) && Above(t, a, b) && Above(t, b, x) && Above(t, a, x)
    ensures PoseIn(g, t, poses, x, a) == Times(g, PoseIn(g, t, poses, b, a), PoseIn(g, t, poses, x, b))
  {
    var n, m := StepsTo(t, x, b), StepsTo(t, b, a);
    UpUp(t, x, n, m);
    StepsUnique(t, x, a, n + m);
    var lower := Climb(g, t, poses, x, n);
    if lower.Some? {
      ClimbOn(g, t, poses, x, n, m, g.id, lower.value);
      ClimbTimes(g, t, poses, b, m, lower.value);
    } else {
      ClimbFails(g, t, poses, x, n, n + m, g.id);
    }
  }

  lemma StepsUnique(t: Parents, x: string, a: string, k: nat)
    requires Rooted(t, x) && Up(t, x, k) == Some(a)
    ensures Above(t, a, x) && StepsTo(t, x, a) == k
  {
    assert Above(t, a, x);
    var n := StepsTo(t, x, a);
    if n < k { RootedDistinct(t, x, n, k); }
  }

  /** Poses are there for every frame with a parent: climbing to a frame above always succeeds. */
  lemma {:induction false} ClimbSucceeds<G(!new)>(g: Group<G>, t: Parents, poses: Poses<G>, x: string, n: nat)
    requires Up(t, x, n).Some?
    requires forall y :: ParentOf(t, y).Some? ==> y in poses
    ensures Climb(g, t, poses, x, n).Some?
  {
    if n != 0 {
      UpPrefix(t, x, n - 1, n);
      ClimbSucceeds(g, t, poses, x, n - 1);
    }
  }
}
