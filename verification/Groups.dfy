/** What lookups use of spatial frames: they compose, and composition can be undone. */
module Groups {

  datatype Group<!G(!new)> = Group(mul: (G, G) -> G, inv: G -> G, id: G) {
    ghost predicate AssocAt(a: G, b: G, c: G) { mul(mul(a, b), c) == mul(a, mul(b, c)) }

    ghost predicate UnitAt(a: G) { mul(id, a) == a && mul(a, id) == a }

    ghost predicate InverseAt(a: G) { mul(inv(a), a) == id && mul(a, inv(a)) == id }

    ghost predicate Laws()
    {
      (forall a, b, c :: AssocAt(a, b, c)) && (forall a :: UnitAt(a)) && (forall a :: InverseAt(a))
    }
  }

  lemma InvUnique<G(!new)>(g: Group<G>, a: G, b: G)
    requires g.Laws() && g.mul(a, b) == g.id
    ensures b == g.inv(a)
  {
    assert g.AssocAt(g.inv(a), a, b) && g.InverseAt(a) && g.UnitAt(b) && g.UnitAt(g.inv(a));
  }

  lemma InvOfQuotient<G(!new)>(g: Group<G>, a: G, b: G)
    requires g.Laws()
    ensures g.inv(g.mul(a, g.inv(b))) == g.mul(b, g.inv(a))
  {
    var x, y := g.mul(a, g.inv(b)), g.mul(b, g.inv(a));
    assert g.AssocAt(a, g.inv(b), y) && g.AssocAt(g.inv(b), b, g.inv(a));
    assert g.InverseAt(a) && g.InverseAt(b) && g.UnitAt(g.inv(a));
    InvUnique(g, x, y);
  }

  lemma InvOfProduct<G(!new)>(g: Group<G>, a: G, b: G)
    requires g.Laws()
    ensures g.inv(g.mul(a, b)) == g.mul(g.inv(b), g.inv(a))
  {
    var y := g.mul(g.inv(b), g.inv(a));
    assert g.AssocAt(a, b, y) && g.AssocAt(b, g.inv(b), g.inv(a));
    assert g.InverseAt(a) && g.InverseAt(b) && g.UnitAt(g.inv(a));
    InvUnique(g, g.mul(a, b), y);
  }

  /** A quotient of products with the same left factor. */
  lemma Conjugate<G(!new)>(g: Group<G>, q: G, p: G, f: G)
    requires g.Laws()
    ensures g.mul(g.mul(q, p), g.inv(g.mul(q, f))) == g.mul(q, g.mul(g.mul(p, g.inv(f)), g.inv(q)))
  {
    InvOfProduct(g, q, f);
    assert g.AssocAt(q, p, g.mul(g.inv(f), g.inv(q))) && g.AssocAt(p, g.inv(f), g.inv(q));
  }

  lemma InvId<G(!new)>(g: Group<G>)
    requires g.Laws()
    ensures g.inv(g.id) == g.id
  {
    assert g.UnitAt(g.id);
    InvUnique(g, g.id, g.id);
  }
}
