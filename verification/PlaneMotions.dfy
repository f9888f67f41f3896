/**
 A concrete group of frames: motions of the plane that turn by right angles and move by any real
 vector, composed and inverted the way the kinematics library composes a rotation and a translation.
 */
module PlaneMotions {
  import opened Wrappers
  import opened Ancestors
  import opened Groups
  import opened FramePaths

  /** Counter-clockwise, in right angles. */
  datatype Turn = Zero | One | Two | Three

  datatype Motion = Motion(turn: Turn, x: real, y: real)

  function Next(t: Turn): (n: Turn)
  {
    match t case Zero => One case One => Two case Two => Three case Three => Zero
  }

  function TurnMul(s: Turn, t: Turn): (u: Turn)
  {
    match s
    case Zero => t
    case One => Next(t)
    case Two => Next(Next(t))
    case Three => Next(Next(Next(t)))
  }

  function TurnInv(t: Turn): (u: Turn)
  {
    match t case Zero => Zero case One => Three case Two => Two case Three => One
  }

  function Rotate(t: Turn, x: real, y: real): (p: (real, real))
  {
    match t case Zero => (x, y) case One => (-y, x) case Two => (-x, -y) case Three => (y, -x)
  }

  function Mul(f: Motion, g: Motion): (h: Motion)
  {
    var p := Rotate(f.turn, g.x, g.y);
    Motion(TurnMul(f.turn, g.turn), p.0 + f.x, p.1 + f.y)
  }

  function Inv(f: Motion): (h: Motion)
  {
    var p := Rotate(TurnInv(f.turn), f.x, f.y);
    Motion(TurnInv(f.turn), -p.0, -p.1)
  }

  function Motions(): (g: Group<Motion>)
  {
    Group(Mul, Inv, Motion(Zero, 0.0, 0.0))
  }

  lemma RotateMul(s: Turn, t: Turn, x: real, y: real)
    ensures Rotate(TurnMul(s, t), x, y) == var p := Rotate(t, x, y); Rotate(s, p.0, p.1)
  {
  }

  lemma MulAssoc(f: Motion, g: Motion, h: Motion)
    ensures Mul(Mul(f, g), h) == Mul(f, Mul(g, h))
  {
    RotateMul(f.turn, g.turn, h.x, h.y);
    TurnAssoc(f.turn, g.turn, h.turn);
    var p := Rotate(g.turn, h.x, h.y);
    RotateSum(f.turn, p.0, p.1, g.x, g.y);
  }

  lemma TurnAssoc(s: Turn, t: Turn, u: Turn)
    ensures TurnMul(TurnMul(s, t), u) == TurnMul(s, TurnMul(t, u))
  {
  }

  lemma RotateSum(t: Turn, x: real, y: real, a: real, b: real)
    ensures var p, q := Rotate(t, x, y), Rotate(t, a, b);
      Rotate(t, x + a, y + b) == (p.0 + q.0, p.1 + q.1)
  {
  }

  /** They satisfy the laws, so everything said of lookups is said of something. */
  lemma MotionsAreAGroup()
    ensures Motions().Laws()
  {
    var m := Motions();
    forall f, g, h ensures m.AssocAt(f, g, h) { MulAssoc(f, g, h); }
    forall f ensures m.UnitAt(f) && m.InverseAt(f) { }
  }

  /**
   Between frames of which neither is above the other, the lookup is in general not the pose of the
   one relative to the other: take two children of one root, one turned and one only moved.
   */
  lemma SiblingsDiffer(t: Parents, poses: Poses<Motion>, root: string, turned: string, moved: string)
    requires root != turned && root != moved
    requires turned in t && t[turned] == Some(root) && moved in t && t[moved] == Some(root)
    requires turned in poses && poses[turned].turn == One
    requires moved in poses && poses[moved].turn == Zero && (poses[moved].x != 0.0 || poses[moved].y != 0.0)
    ensures Above(t, root, turned) && Above(t, root, moved)
    ensures LookupVia(Motions(), t, poses, turned, moved, root)
         != RelativePose(Motions(), t, poses, turned, moved, root)
  {
    var g := Motions();
    MotionsAreAGroup();
    OneStep(g, t, poses, turned, root);
    OneStep(g, t, poses, moved, root);
    RelativeIffCommute(g, t, poses, turned, moved, root);
    DoNotCommute(poses[turned], poses[moved]);
  }

  lemma DoNotCommute(f: Motion, p: Motion)
    requires f.turn == One && p.turn == Zero && (p.x != 0.0 || p.y != 0.0)
    ensures Motions().mul(f, p) != Motions().mul(p, f)
  {
    assert Mul(f, p) == Motion(One, -p.y + f.x, p.x + f.y) && Mul(p, f) == Motion(One, f.x + p.x, f.y + p.y);
  }

  lemma OneStep<G(!new)>(g: Group<G>, t: Parents, poses: Poses<G>, x: string, root: string)
    requires g.Laws() && x in t && t[x] == Some(root) && x != root && x in poses
    ensures Above(t, root, x) && PoseIn(g, t, poses, x, root) == Some(poses[x])
  {
    assert g.UnitAt(poses[x]);
    assert Up(t, x, 0) == Some(x);
    assert Up(t, x, 1) == Some(root);
    assert StepsTo(t, x, root) == 1;
    assert ClimbFrom(g, t, poses, x, 0, g.id) == Some(g.id);
  }
}
