/** The class `TransformTree`: the frames, the cache of shared ancestors, and lookups through it. */
module TransformTrees {
  import opened Wrappers
  import opened FrameNames
  import opened Ancestors
  import opened Groups
  import opened FramePaths
  import opened TimeSeries
  import opened TreeNodes

  /** The outcomes of a lookup; with no shared ancestor the code dereferences a null node, and with
      another pair's it may go round a loop for ever. */
  datatype Outcome<G> = Found(pose: G) | Failed | Crash | Hang

  ghost function OutcomeOf<G>(p: Option<G>): (o: Outcome<G>)
  {
    match p case Some(v) => Found(v) case None => Failed
  }

  // ---------- The two walks ----------

  ghost predicate WalkInv(t: Parents, start: string, i: nat, visited: set<string>, here: Option<string>)
  {
    && here == Up(t, start, i)
    && (forall j: nat :: j < i ==> Up(t, start, j).Some? && Up(t, start, j).value in visited)
    && (forall c :: c in visited ==> c in t && exists j: nat :: j < i && Up(t, start, j) == Some(c))
  }

  lemma WalkLoops(t: Parents, start: string, i: nat, visited: set<string>, here: Option<string>)
    requires WalkInv(t, start, i, visited, here) && here.Some? && here.value in visited
    ensures !Rooted(t, start)
  {
    var j: nat :| j < i && Up(t, start, j) == Some(here.value);
    if Rooted(t, start) { RootedDistinct(t, start, j, i); }
  }

  lemma WalkEnds(t: Parents, start: string, i: nat, visited: set<string>, here: Option<string>)
    requires WalkInv(t, start, i, visited, here) && here == None
    ensures Rooted(t, start) && forall c :: c in visited <==> Above(t, c, start)
  {
    assert Up(t, start, i) == None;
    forall c | Above(t, c, start) ensures c in visited
    {
      var k: nat :| Up(t, start, k) == Some(c);
      if k >= i { UpPrefix(t, start, i, k); }
    }
  }

  /** Collects a chain; false if it runs into itself. Ends on every finite forest, loops included. */
  method Walk(t: Parents, start: string) returns (ends: bool, visited: set<string>)
    requires Closed(t) && start in t
    ensures ends <==> Rooted(t, start)
    ensures ends ==> forall c :: c in visited <==> Above(t, c, start)
  {
    visited := {};
    var here := Some(start);
    ghost var i: nat := 0;
    while here.Some?
      invariant WalkInv(t, start, i, visited, here)
      invariant here.Some? ==> here.value in t
      decreases t.Keys - visited, here.Some?
    {
      if here.value in visited {
        WalkLoops(t, start, i, visited, here);
        return false, visited;
      }
      visited := visited + {here.value};
      here := t[here.value];
      i := i + 1;
    }
    WalkEnds(t, start, i, visited, here);
    ends := true;
  }

  lemma MeetIsLowest(t: Parents, from: string, to: string, i: nat, a: string)
    requires Rooted(t, from) && Up(t, to, i) == Some(a) && Above(t, a, from)
    requires forall j: nat :: j < i ==> Up(t, to, j).Some? && !Above(t, Up(t, to, j).value, from)
    ensures Rooted(t, to) && Lowest(t, from, to, a)
  {
    var k: nat :| Up(t, from, k) == Some(a);
    RootedUp(t, from, k);
    RootedUp(t, to, i);
    assert Above(t, a, to);
    forall c | Common(t, from, to, c) ensures Above(t, c, a)
    {
      var q: nat :| Up(t, to, q) == Some(c);
      assert q >= i;
      UpUp(t, to, i, q - i);
    }
  }

  /** The search: the lowest common ancestor, or why there is none. */
  method Search(t: Parents, from: string, to: string) returns (r: SearchResult)
    requires Closed(t)
    ensures Finds(t, from, to, r)
  {
    if from !in t || to !in t {
      return Missing;
    }
    var ends, fromVisited := Walk(t, from);
    if !ends {
      return Loop;
    }
    var visited: set<string> := {};
    var here := Some(to);
    ghost var i: nat := 0;
    while here.Some?
      invariant WalkInv(t, to, i, visited, here)
      invariant here.Some? ==> here.value in t
      invariant forall j: nat :: j < i ==> !Above(t, Up(t, to, j).value, from)
      invariant visited !! fromVisited
      decreases t.Keys - visited, here.Some?
    {
      if here.value in visited {
        WalkLoops(t, to, i, visited, here);
        return Loop;
      }
      if here.value in fromVisited {
        MeetIsLowest(t, from, to, i, here.value);
        return Shared(here.value);
      }
      visited := visited + {here.value};
      here := t[here.value];
      i := i + 1;
    }
    WalkEnds(t, to, i, visited, here);
    r := Apart;
  }

  // ---------- The class ----------

  /** The ancestor was found by a search in a forest that has only grown since. */
  ghost predicate FoundBefore(t: Parents, from: string, to: string, a: string)
  {
    exists t0: Parents :: Extends(t0, t) && Finds(t0, from, to, Shared(a))
  }

  lemma FoundBeforeAbove(t: Parents, from: string, to: string, a: string)
    requires FoundBefore(t, from, to, a)
    ensures Above(t, a, from) && Above(t, a, to) && from in t && to in t
  {
    var t0: Parents :| Extends(t0, t) && Finds(t0, from, to, Shared(a));
    AboveExtends(t0, t, a, from);
    AboveExtends(t0, t, a, to);
  }

  /** What is cached under a key was found for some pair with that key. */
  ghost predicate CacheOk(t: Parents, cache: map<string, string>)
  {
    forall key :: key in cache ==> Recorded(t, key, cache[key])
  }

  ghost predicate Recorded(t: Parents, key: string, a: string)
  {
    exists f, g :: Token(f, g) == key && FoundBefore(t, f, g, a)
  }

  /** A pair that has its key for itself finds in the cache what was found for it. */
  lemma CacheServes(t: Parents, cache: map<string, string>, from: string, to: string)
    requires CacheOk(t, cache) && Unique(from, to) && Token(from, to) in cache
    ensures FoundBefore(t, from, to, cache[Token(from, to)])
  {
    var a := cache[Token(from, to)];
    assert Recorded(t, Token(from, to), a);
    var f, g :| Token(f, g) == Token(from, to) && FoundBefore(t, f, g, a);
    var t0: Parents :| Extends(t0, t) && Finds(t0, f, g, Shared(a));
    FindsSwapped(t0, f, g, Shared(a));
  }

  /** Exactly which pairs the cache serves right, whatever is in it: those with a key of their own. */
  lemma CacheServesIff(from: string, to: string)
    ensures Unique(from, to) <==>
      forall t: Parents, cache: map<string, string> :: CacheOk(t, cache) && Token(from, to) in cache ==>
        FoundBefore(t, from, to, cache[Token(from, to)])
  {
    if Unique(from, to) {
      forall t: Parents, cache: map<string, string> | CacheOk(t, cache) && Token(from, to) in cache
        ensures FoundBefore(t, from, to, cache[Token(from, to)])
      {
        CacheServes(t, cache, from, to);
      }
    } else {
      var c, d :| Token(c, d) == Token(from, to) && !(from == c && to == d) && !(from == d && to == c);
      var t, a := Pair(c, d);
      var cache: map<string, string> := map[Token(c, d) := a];
      assert Extends(t, t);
      assert FoundBefore(t, c, d, a);
      assert Recorded(t, Token(c, d), cache[Token(c, d)]);
      assert CacheOk(t, cache);
      if FoundBefore(t, from, to, a) {
        FoundBeforeAbove(t, from, to, a);
        SameNames(from, to, c, d);
      }
    }
  }

  /** A tree of two frames, one above the other. */
  lemma Pair(c: string, d: string) returns (t: Parents, a: string)
    ensures t.Keys == {c, d} && Finds(t, c, d, Shared(a))
  {
    t, a := map[c := Some(d)][d := None], d;
    assert Up(t, d, 0) == Some(d) && Up(t, d, 1) == None;
    if c != d {
      assert Up(t, c, 1) == Some(d);
      UpUp(t, c, 1, 1);
      assert Up(t, c, 2) == None;
    }
    forall x | Common(t, c, d, x) ensures Above(t, x, d) { }
    AboveSelf(t, d);
  }

  lemma CacheExtends(t: Parents, t': Parents, cache: map<string, string>)
    requires CacheOk(t, cache) && Extends(t, t')
    ensures CacheOk(t', cache)
  {
    forall key | key in cache ensures Recorded(t', key, cache[key]) {
      assert Recorded(t, key, cache[key]);
      var f, g :| Token(f, g) == key && FoundBefore(t, f, g, cache[key]);
      var t0: Parents :| Extends(t0, t) && Finds(t0, f, g, Shared(cache[key]));
      assert Extends(t0, t');
      assert FoundBefore(t', f, g, cache[key]);
    }
  }

  lemma CacheRecords(t: Parents, cache: map<string, string>, from: string, to: string, a: string)
    requires CacheOk(t, cache) && Finds(t, from, to, Shared(a))
    ensures CacheOk(t, cache[Token(from, to) := a])
  {
    assert Extends(t, t);
    assert FoundBefore(t, from, to, a);
    assert Recorded(t, Token(from, to), a);
  }

  class TransformTree<G(!new)> {
    const group: Group<G>
    var nodes: map<string, Node<G>>
    /** Shared ancestors by key. */
    var cache: map<string, string>
    /** Every message that was added, for the specification. */
    ghost var history: seq<Message<G>>

    ghost predicate Valid()
      reads this
    {
      NodesOk(nodes) && nodes == Built(history) && CacheOk(ParentsOf(nodes), cache)
    }

    constructor (group: Group<G>)
      ensures Valid() && this.group == group && nodes == map[] && cache == map[] && history == []
    {
      this.group := group;
      nodes, cache, history := map[], map[], [];
    }

    method AddTransformNode(m: Transform<G>, isStatic: bool)
      requires Valid()
      modifies this`nodes, this`history
      ensures Valid() && history == old(history) + [(m, isStatic)]
      ensures Extends(ParentsOf(old(nodes)), ParentsOf(nodes))
    {
      AddedOk(nodes, m, isStatic);
      CacheExtends(ParentsOf(nodes), ParentsOf(Added(nodes, m, isStatic)), cache);
      BuiltSnoc(history, m, isStatic);
      nodes := InsertMessage(nodes, m, isStatic);
      history := history + [(m, isStatic)];
    }

    /** Searches afresh and records what it finds. */
    method FindSharedAncestor(from: string, to: string) returns (r: SearchResult)
      requires Valid()
      modifies this`cache
      ensures Valid() && Finds(ParentsOf(nodes), from, to, r)
      ensures cache == if r.Shared? then old(cache)[Token(from, to) := r.ancestor] else old(cache)
    {
      var t: Parents := map x | x in nodes :: nodes[x].parent;
      r := Search(t, from, to);
      if r.Shared? {
        CacheRecords(t, cache, from, to, r.ancestor);
        cache := cache[Token(from, to) := r.ancestor];
      }
    }

    /** The two loops through the ancestor in the cache, whichever pair with this key it was found for. */
    method GetTransform(from: string, to: string, stamp: Stamp, tolerance: int) returns (o: Outcome<G>)
      requires Valid() && from in nodes && to in nodes && Token(from, to) in cache
      ensures o == LookupTo(group, ParentsOf(nodes), PosesAt(nodes, stamp, tolerance), from, to, cache[Token(from, to)])
    {
      var root := cache[Token(from, to)];
      ghost var t, poses := ParentsOf(nodes), PosesAt(nodes, stamp, tolerance);
      PosesHaveParents(nodes, stamp, tolerance);
      var c := ClimbLoop(group, nodes, from, root, group.id, stamp, tolerance, t, poses);
      if c.Reached? {
        c := ClimbLoop(group, nodes, to, root, group.inv(c.value), stamp, tolerance, t, poses);
      }
      o := if c.Reached? then Found(c.value) else if c.Stopped? then Failed else Hang;
    }

    /** A lookup: by the cached ancestor if there is one, otherwise by a fresh search. */
    method Lookup(from: string, to: string, stamp: Stamp, tolerance: int) returns (o: Outcome<G>)
      requires Valid() && (Unique(from, to) || (from in nodes && to in nodes))
      modifies this`cache
      ensures Valid()
      ensures Token(from, to) in old(cache) ==> cache == old(cache)
      ensures Token(from, to) in cache ==>
        o == LookupTo(group, ParentsOf(nodes), PosesAt(nodes, stamp, tolerance), from, to, cache[Token(from, to)])
      ensures Token(from, to) in cache && (Unique(from, to) || Token(from, to) !in old(cache)) ==>
        FoundBefore(ParentsOf(nodes), from, to, cache[Token(from, to)])
      ensures Token(from, to) !in cache ==>
        if o == Crash then Finds(ParentsOf(nodes), from, to, Apart)
        else o == Failed && (Finds(ParentsOf(nodes), from, to, Missing) || Finds(ParentsOf(nodes), from, to, Loop))
    {
      if Token(from, to) !in cache {
        var r := FindSharedAncestor(from, to);
        if r.Missing? || r.Loop? {
          return Failed;
        }
        if r.Apart? {
          return Crash;
        }
        assert Extends(ParentsOf(nodes), ParentsOf(nodes));
      } else if Unique(from, to) {
        CacheServes(ParentsOf(nodes), cache, from, to);
        FoundBeforeAbove(ParentsOf(nodes), from, to, cache[Token(from, to)]);
      }
      o := GetTransform(from, to, stamp, tolerance);
    }
  }

  /** The forest and the poses are those of the nodes. */
  ghost predicate Reads<G>(nodes: map<string, Node<G>>, stamp: Stamp, tolerance: int, t: Parents, poses: Poses<G>)
  {
    && t.Keys == nodes.Keys
    && forall y :: y in nodes ==>
         && t[y] == nodes[y].parent
         && var p := Choose(nodes[y].series, nodes[y].isStatic, stamp, tolerance);
            if p.Some? then y in poses && poses[y] == p.value else y !in poses
  }

  /** Only frames with a parent have data. */
  lemma PosesHaveParents<G>(nodes: map<string, Node<G>>, stamp: Stamp, tolerance: int)
    requires NodesOk(nodes)
    ensures Closed(ParentsOf(nodes))
    ensures Reads(nodes, stamp, tolerance, ParentsOf(nodes), PosesAt(nodes, stamp, tolerance))
    ensures forall y :: y in nodes && y in PosesAt(nodes, stamp, tolerance) ==> nodes[y].parent.Some?
  {
  }

  /** What the two loops come to with any ancestor. */
  ghost function LookupTo<G(!new)>(g: Group<G>, t: Parents, poses: Poses<G>, from: string, to: string, a: string)
    : (o: Outcome<G>)
  {
    match ClimbTo(g, t, poses, from, a, g.id)
    case Stopped => Failed
    case Endless => Hang
    case Reached(f) =>
      match ClimbTo(g, t, poses, to, a, g.inv(f))
      case Stopped => Failed
      case Endless => Hang
      case Reached(p) => Found(p)
  }

  /** The climb has gone i steps, past frames with poses only, and not met the root. */
  ghost predicate Climbing<G(!new)>(
    g: Group<G>, t: Parents, poses: Poses<G>, x: string, root: string, start: G,
    i: nat, visited: set<string>, current: string, frame: G)
  {
    && WalkInv(t, x, i, visited, Some(current)) && current in t
    && root !in visited && visited <= poses.Keys && ClimbFrom(g, t, poses, x, i, start) == Some(frame)
  }

  lemma ClimbReaches<G(!new)>(
    g: Group<G>, t: Parents, poses: Poses<G>, x: string, root: string, start: G,
    i: nat, visited: set<string>, frame: G)
    requires Climbing(g, t, poses, x, root, start, i, visited, root, frame)
    ensures ClimbTo(g, t, poses, x, root, start) == Reached(frame)
  {
    assert Above(t, root, x);
    var n := StepsTo(t, x, root);
    assert n == i;
  }

  lemma ClimbStops<G(!new)>(
    g: Group<G>, t: Parents, poses: Poses<G>, x: string, root: string, start: G,
    i: nat, visited: set<string>, current: string, frame: G)
    requires Climbing(g, t, poses, x, root, start, i, visited, current, frame) && current != root && current !in poses
    ensures ClimbTo(g, t, poses, x, root, start) == Stopped
  {
    if Above(t, root, x) {
      var n := StepsTo(t, x, root);
      assert n > i;
      ClimbFails(g, t, poses, x, i + 1, n, start);
    }
  }

  lemma ClimbLoops<G(!new)>(
    g: Group<G>, t: Parents, poses: Poses<G>, x: string, root: string, start: G,
    i: nat, visited: set<string>, current: string, frame: G)
    requires Climbing(g, t, poses, x, root, start, i, visited, current, frame) && current in visited
    ensures ClimbTo(g, t, poses, x, root, start) == Endless
  {
    var j: nat :| j < i && Up(t, x, j) == Some(current);
    forall k: nat ensures Up(t, x, k).Some? && Up(t, x, k).value in visited {
      var m := LoopCovers(t, x, j, i, k);
    }
  }

  lemma ClimbGoesOn<G(!new)>(
    g: Group<G>, t: Parents, poses: Poses<G>, x: string, root: string, start: G,
    i: nat, visited: set<string>, current: string, frame: G)
    requires Climbing(g, t, poses, x, root, start, i, visited, current, frame) && current != root
    requires Closed(t) && current in poses && t[current].Some?
    ensures Climbing(g, t, poses, x, root, start, i + 1, visited + {current}, t[current].value,
                     g.mul(poses[current], frame))
  {
    assert Up(t, x, i + 1) == t[current];
    forall c | c in visited + {current} ensures c in t && exists j: nat :: j < i + 1 && Up(t, x, j) == Some(c) {
      if c == current {
        assert Up(t, x, i) == Some(c);
      } else {
        var j: nat :| j < i && Up(t, x, j) == Some(c);
      }
    }
  }

  /** One of the two loops of `get_transform`: from x up to the root, left-multiplying. It keeps the frames
      it has passed only to tell where the code would never come to an end. */
  method ClimbLoop<G(!new)>(
    group: Group<G>, nodes: map<string, Node<G>>, x: string, root: string, start: G, stamp: Stamp, tolerance: int,
    ghost t: Parents, ghost poses: Poses<G>)
    returns (c: Climbed<G>)
    requires Closed(t) && Reads(nodes, stamp, tolerance, t, poses) && x in nodes
    requires forall y :: y in nodes && y in poses ==> nodes[y].parent.Some?
    ensures c == ClimbTo(group, t, poses, x, root, start)
  {
    ghost var i: nat := 0;
    var frame, current, visited := start, x, {};
    while current != root
      invariant Climbing(group, t, poses, x, root, start, i, visited, current, frame)
      decreases nodes.Keys - visited
    {
      if current in visited {
        ClimbLoops(group, t, poses, x, root, start, i, visited, current, frame);
        return Endless;
      }
      var pose := Choose(nodes[current].series, nodes[current].isStatic, stamp, tolerance);
      if pose.None? {
        ClimbStops(group, t, poses, x, root, start, i, visited, current, frame);
        return Stopped;
      }
      ClimbGoesOn(group, t, poses, x, root, start, i, visited, current, frame);
      frame := group.mul(pose.value, frame);
      visited := visited + {current};
      current := nodes[current].parent.value;
      i := i + 1;
    }
    ClimbReaches(group, t, poses, x, root, start, i, visited, frame);
    c := Reached(frame);
  }

  /**
   Exactly when a lookup finds something, with whichever ancestor: it is above both frames and the poses on
   the way are there. What it finds is then A_to times the inverse of A_from.
   */
  lemma FoundIff<G(!new)>(g: Group<G>, t: Parents, poses: Poses<G>, from: string, to: string, a: string)
    requires g.Laws()
    ensures var o := LookupTo(g, t, poses, from, to, a);
      && (o.Found? <==> Above(t, a, from) && Above(t, a, to) && LookupVia(g, t, poses, from, to, a).Some?)
      && (o.Found? ==> Some(o.pose) == LookupVia(g, t, poses, from, to, a))
      && (Above(t, a, from) && Above(t, a, to) ==> o == OutcomeOf(LookupLoops(g, t, poses, from, to, a)))
  {
    if Above(t, a, from) && Above(t, a, to) {
      LoopsAreQuotient(g, t, poses, from, to, a);
    }
  }

  /** Exactly when it never comes back: a climb, the second one only behind a successful first, has its
      frame not above it and poses all the way round a loop. */
  lemma HangsIff<G(!new)>(g: Group<G>, t: Parents, poses: Poses<G>, from: string, to: string, a: string)
    requires forall y :: y in poses ==> ParentOf(t, y).Some?
    ensures LookupTo(g, t, poses, from, to, a).Hang? <==>
      || Circles(t, poses, from, a)
      || (ClimbTo(g, t, poses, from, a, g.id).Reached? && Circles(t, poses, to, a))
    ensures Circles(t, poses, from, a) ==> !Rooted(t, from)
  {
    if Rooted(t, from) {
      TopIsBlocked(t, poses, from);
    }
  }

  ghost predicate Circles<G>(t: Parents, poses: Poses<G>, x: string, a: string)
  {
    !Above(t, a, x) && !Blocked(t, poses, x)
  }

  /** The top of a chain that ends has no pose. */
  lemma TopIsBlocked<G>(t: Parents, poses: Poses<G>, x: string)
    requires Rooted(t, x) && forall y :: y in poses ==> ParentOf(t, y).Some?
    ensures Blocked(t, poses, x)
  {
    var k: nat :| Up(t, x, k) == None;
    LastUp(t, x, k);
  }

  lemma {:induction false} LastUp(t: Parents, x: string, k: nat)
    requires Up(t, x, k) == None
    ensures exists i: nat :: Up(t, x, i).Some? && ParentOf(t, Up(t, x, i).value) == None
    decreases k
  {
    if Up(t, x, k - 1).Some? {
      assert ParentOf(t, Up(t, x, k - 1).value) == None;
    } else {
      LastUp(t, x, k - 1);
    }
  }

  /**
   The ancestor used by a lookup is the one a fresh search of the present forest would find, exactly
   as long as the chain of `from` ends.
   */
  lemma LookupUsesLowest(t: Parents, from: string, to: string, a: string)
    requires FoundBefore(t, from, to, a)
    ensures Finds(t, from, to, Shared(a)) <==> Rooted(t, from)
    ensures Rooted(t, from) ==> forall r :: Finds(t, from, to, r) || Finds(t, to, from, r) ==> r == Shared(a)
  {
    var t0: Parents :| Extends(t0, t) && Finds(t0, from, to, Shared(a));
    CacheAgrees(t0, t, from, to, a);
    if Rooted(t, from) {
      forall r | Finds(t, from, to, r) || Finds(t, to, from, r) ensures r == Shared(a)
      {
        FindsUnique(t, from, to, Shared(a), r);
      }
    }
  }

  /**
   A lookup without tolerance between frames with a shared ancestor succeeds, on the newest entries:
   every frame with a parent has data.
   */
  lemma DefaultLookupSucceeds<G(!new)>(
    g: Group<G>, nodes: map<string, Node<G>>, stamp: Stamp, tolerance: int, from: string, to: string, a: string)
    requires NodesOk(nodes) && tolerance < 0 && Above(ParentsOf(nodes), a, from) && Above(ParentsOf(nodes), a, to)
    ensures LookupVia(g, ParentsOf(nodes), PosesAt(nodes, stamp, tolerance), from, to, a).Some?
    ensures forall x :: x in nodes && nodes[x].series != [] ==>
      var s := nodes[x].series;
      x in PosesAt(nodes, stamp, tolerance) && PosesAt(nodes, stamp, tolerance)[x] == s[|s| - 1].value
  {
    var t, poses := ParentsOf(nodes), PosesAt(nodes, stamp, tolerance);
    ClimbSucceeds(g, t, poses, from, StepsTo(t, from, a));
    ClimbSucceeds(g, t, poses, to, StepsTo(t, to, a));
  }
}
