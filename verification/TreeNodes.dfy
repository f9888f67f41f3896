/** The frames of a transform tree: what each message makes of them, and what all of them together do. */
module TreeNodes {
  import opened Wrappers
  import opened Ancestors
  import opened FramePaths
  import opened TimeSeries

  datatype Node<G> = Node(parent: Option<string>, isStatic: bool, series: seq<Sample<G>>)

  /** A message of `/tf` or `/tf_static`. */
  datatype Transform<G> = Transform(frame: string, child: string, sample: Sample<G>)

  /** Every parent is a known frame. */
  ghost predicate Closed(t: Parents)
  {
    forall x :: x in t && t[x].Some? ==> t[x].value in t
  }

  ghost function ParentsOf<G>(nodes: map<string, Node<G>>): (t: Parents)
  {
    map x | x in nodes :: nodes[x].parent
  }

  /** What each frame offers a lookup with this stamp and tolerance. */
  ghost function PosesAt<G>(nodes: map<string, Node<G>>, stamp: Stamp, tolerance: int): (poses: Poses<G>)
  {
    map x | x in nodes && Choose(nodes[x].series, nodes[x].isStatic, stamp, tolerance).Some?
      :: Choose(nodes[x].series, nodes[x].isStatic, stamp, tolerance).value
  }

  /** Parents are known frames; a frame has data exactly when it has a parent; series are sorted. */
  ghost predicate NodesOk<G>(nodes: map<string, Node<G>>)
  {
    Closed(ParentsOf(nodes)) && forall x :: x in nodes ==> NodeOk(nodes[x])
  }

  ghost predicate NodeOk<G>(n: Node<G>)
  {
    (n.parent.Some? <==> n.series != []) && Sorted(n.series)
  }

  function NodeOf<G>(nodes: map<string, Node<G>>, x: string): (n: Node<G>)
  {
    if x in nodes then nodes[x] else Node(None, false, [])
  }

  /** What a message makes of its child frame: an entry, perhaps static for good, and the parent if
      there was none; a different parent later is ignored. */
  function ChildAfter<G>(was: Node<G>, m: Transform<G>, isStatic: bool): (n: Node<G>)
  {
    Node(if was.parent.Some? then was.parent else Some(m.frame),
         was.isStatic || isStatic,
         Pushed(was.series, was.isStatic || isStatic, m.sample))
  }

  function Added<G>(nodes: map<string, Node<G>>, m: Transform<G>, isStatic: bool): (nodes': map<string, Node<G>>)
  {
    nodes[m.frame := NodeOf(nodes, m.frame)][m.child := ChildAfter(NodeOf(nodes, m.child), m, isStatic)]
  }

  lemma AddedOk<G>(nodes: map<string, Node<G>>, m: Transform<G>, isStatic: bool)
    requires NodesOk(nodes)
    ensures NodesOk(Added(nodes, m, isStatic))
    ensures Extends(ParentsOf(nodes), ParentsOf(Added(nodes, m, isStatic)))
  {
    ParentsAdded(nodes, m, isStatic);
    SetParentOk(ParentsOf(nodes), m.frame, m.child);
    AddedData(nodes, m, isStatic);
  }

  lemma AddedData<G>(nodes: map<string, Node<G>>, m: Transform<G>, isStatic: bool)
    requires forall x :: x in nodes ==> NodeOk(nodes[x])
    ensures forall x :: x in Added(nodes, m, isStatic) ==> NodeOk(Added(nodes, m, isStatic)[x])
  {
    ChildAfterOk(NodeOf(nodes, m.child), m, isStatic);
  }

  lemma ChildAfterOk<G>(was: Node<G>, m: Transform<G>, isStatic: bool)
    requires NodeOk(was)
    ensures NodeOk(ChildAfter(was, m, isStatic))
  {
    PushedNewest(was.series, was.isStatic || isStatic, m.sample);
  }

  lemma ParentsAdded<G>(nodes: map<string, Node<G>>, m: Transform<G>, isStatic: bool)
    ensures ParentsOf(Added(nodes, m, isStatic)) == SetParent(ParentsOf(nodes), m.frame, m.child)
  {
  }

  /** Both frames become known, and the child gets the parent if it has none. */
  ghost function SetParent(t: Parents, frame: string, child: string): (t': Parents)
  {
    t[frame := ParentOf(t, frame)][child := if ParentOf(t, child).Some? then ParentOf(t, child) else Some(frame)]
  }

  lemma SetParentOk(t: Parents, frame: string, child: string)
    requires Closed(t)
    ensures Closed(SetParent(t, frame, child)) && Extends(t, SetParent(t, frame, child))
  {
  }

  /** The updates of `addTransformNode`, one after the other. */
  method InsertMessage<G>(was: map<string, Node<G>>, m: Transform<G>, isStatic: bool)
    returns (nodes: map<string, Node<G>>)
    ensures nodes == Added(was, m, isStatic)
  {
    nodes := was;
    if m.child !in nodes {
      nodes := nodes[m.child := Node(None, false, [])];
    }
    if m.frame !in nodes {
      nodes := nodes[m.frame := Node(None, false, [])];
    }
    ghost var known := nodes;
    var child := UpdateChild(nodes[m.child], m, isStatic);
    nodes := nodes[m.child := child];
    AddedIs(was, known, m, isStatic);
  }

  method UpdateChild<G>(was: Node<G>, m: Transform<G>, isStatic: bool) returns (child: Node<G>)
    ensures child == ChildAfter(was, m, isStatic)
  {
    child := was;
    if isStatic {
      child := child.(isStatic := true);
    }
    var series := Push(child.series, child.isStatic, m.sample);
    child := child.(series := series);
    if child.parent.None? {
      child := child.(parent := Some(m.frame));
    }
  }

  /** Both frames are known, and the child is what the message makes of it. */
  lemma AddedIs<G>(was: map<string, Node<G>>, known: map<string, Node<G>>, m: Transform<G>, isStatic: bool)
    requires known == was[m.child := NodeOf(was, m.child)][m.frame := NodeOf(was, m.frame)]
    ensures m.child in known
      && known[m.child := ChildAfter(known[m.child], m, isStatic)] == Added(was, m, isStatic)
  {
  }

  // ---------- All messages together ----------

  /** A message, and whether it came as a static one. */
  type Message<G> = (Transform<G>, bool)

  /** The frames after a history of messages. */
  function Built<G>(history: seq<Message<G>>): (nodes: map<string, Node<G>>)
  {
    if history == [] then map[]
    else
      var last := history[|history| - 1];
      Added(Built(history[..|history| - 1]), last.0, last.1)
  }

  lemma BuiltSnoc<G>(history: seq<Message<G>>, m: Transform<G>, isStatic: bool)
    ensures Built(history + [(m, isStatic)]) == Added(Built(history), m, isStatic)
  {
    assert (history + [(m, isStatic)])[..|history|] == history;
  }

  /** Some message names the frame. */
  predicate Named<G>(history: seq<Message<G>>, x: string)
  {
    exists i :: 0 <= i < |history| && (history[i].0.frame == x || history[i].0.child == x)
  }

  /** Some message for the frame was static. */
  predicate EverStatic<G>(history: seq<Message<G>>, x: string)
  {
    exists i :: 0 <= i < |history| && history[i].0.child == x && history[i].1
  }

  /** Message i is the first one for the frame. */
  predicate FirstFor<G>(history: seq<Message<G>>, x: string, i: int)
  {
    0 <= i < |history| && history[i].0.child == x && forall j :: 0 <= j < i ==> history[j].0.child != x
  }

  /** The samples that came for a frame, each with whether the frame was static by then. */
  function Received<G>(history: seq<Message<G>>, x: string): (samples: seq<(Sample<G>, bool)>)
  {
    if history == [] then []
    else
      var before, m := Received(history[..|history| - 1], x), history[|history| - 1].0;
      if m.child == x then before + [(m.sample, EverStatic(history, x))] else before
  }

  /** A frame is what its messages made of it: under the frame that the first of them named, static if one
      of them was, and with all their samples pushed. */
  ghost predicate Reflects<G>(history: seq<Message<G>>, x: string, n: Node<G>)
  {
    && (n.isStatic <==> EverStatic(history, x))
    && n.series == PushAll(Received(history, x))
    && FirstParent(history, x, n.parent)
  }

  ghost predicate FirstParent<G>(history: seq<Message<G>>, x: string, parent: Option<string>)
  {
    && (parent == None <==> forall i :: 0 <= i < |history| ==> history[i].0.child != x)
    && (forall i :: FirstFor(history, x, i) ==> parent == Some(history[i].0.frame))
  }

  lemma NamedSnoc<G>(history: seq<Message<G>>, last: Message<G>, x: string)
    ensures Named(history + [last], x) <==> Named(history, x) || last.0.frame == x || last.0.child == x
    ensures EverStatic(history + [last], x) <==> EverStatic(history, x) || (last.0.child == x && last.1)
  {
    var all := history + [last];
    assert all[|history|] == last;
    assert forall i :: 0 <= i < |history| ==> all[i] == history[i];
  }

  lemma ReceivedSnoc<G>(history: seq<Message<G>>, last: Message<G>, x: string)
    ensures Received(history + [last], x) ==
      if last.0.child == x then Received(history, x) + [(last.0.sample, EverStatic(history, x) || last.1)]
      else Received(history, x)
  {
    NamedSnoc(history, last, x);
    assert (history + [last])[..|history|] == history;
  }

  lemma PushAllSnoc<G>(samples: seq<(Sample<G>, bool)>, e: Sample<G>, isStatic: bool)
    ensures PushAll(samples + [(e, isStatic)]) == Pushed(PushAll(samples), isStatic, e)
  {
    assert (samples + [(e, isStatic)])[..|samples|] == samples;
  }

  lemma FirstParentSnoc<G>(history: seq<Message<G>>, last: Message<G>, x: string, parent: Option<string>)
    requires FirstParent(history, x, parent)
    ensures FirstParent(history + [last], x,
                        if parent.None? && last.0.child == x then Some(last.0.frame) else parent)
  {
    var all := history + [last];
    assert all[|history|] == last;
    forall i | 0 <= i < |history| ensures all[i] == history[i] && (FirstFor(all, x, i) <==> FirstFor(history, x, i)) {
      assert forall j :: 0 <= j < i ==> all[j] == history[j];
    }
    if parent.Some? {
      var i :| 0 <= i < |history| && history[i].0.child == x;
      assert all[i].0.child == x;
    }
  }

  /** A message for another frame. */
  lemma ReflectsOther<G>(history: seq<Message<G>>, last: Message<G>, x: string, n: Node<G>)
    requires Reflects(history, x, n) && last.0.child != x
    ensures Reflects(history + [last], x, n)
  {
    NamedSnoc(history, last, x);
    ReceivedSnoc(history, last, x);
    FirstParentSnoc(history, last, x, n.parent);
  }

  /** A message for the frame itself. */
  lemma ReflectsChild<G>(history: seq<Message<G>>, last: Message<G>, n: Node<G>)
    requires Reflects(history, last.0.child, n)
    ensures Reflects(history + [last], last.0.child, ChildAfter(n, last.0, last.1))
  {
    var x := last.0.child;
    NamedSnoc(history, last, x);
    ReceivedSnoc(history, last, x);
    PushAllSnoc(Received(history, x), last.0.sample, EverStatic(history, x) || last.1);
    FirstParentSnoc(history, last, x, n.parent);
  }

  /** What every history of messages makes of the tree: exactly the frames they name, each reflecting the
      messages for it. */
  lemma {:induction false} TreeReflects<G>(history: seq<Message<G>>, x: string)
    ensures x in Built(history) <==> Named(history, x)
    ensures Reflects(history, x, NodeOf(Built(history), x))
    decreases |history|
  {
    if history != [] {
      var init, last := history[..|history| - 1], history[|history| - 1];
      assert history == init + [last];
      TreeReflects(init, x);
      NamedSnoc(init, last, x);
      BuiltSnoc(init, last.0, last.1);
      if last.0.child == x {
        ReflectsChild(init, last, NodeOf(Built(init), x));
      } else {
        ReflectsOther(init, last, x, NodeOf(Built(init), x));
      }
    }
  }

  /** So a lookup without tolerance uses, for every frame that messages were for, the first of them to have
      arrived with the greatest stamp. */
  lemma NewestIsUsed<G>(history: seq<Message<G>>, x: string, stamp: Stamp, tolerance: int)
    requires Received(history, x) != [] && tolerance < 0
    ensures x in PosesAt(Built(history), stamp, tolerance)
    ensures exists e :: FirstGreatest(Samples(Received(history, x)), e)
                     && PosesAt(Built(history), stamp, tolerance)[x] == e.value
  {
    var h, s := Samples(Received(history, x)), PushAll(Received(history, x));
    TreeReflects(history, x);
    InTree(history, x);
    NewestSurvives(Received(history, x));
    NewestChosen(h, Built(history), x, stamp, tolerance);
    assert FirstGreatest(h, s[|s| - 1]);
  }

  lemma NewestChosen<G>(h: seq<Sample<G>>, nodes: map<string, Node<G>>, x: string, stamp: Stamp, tolerance: int)
    requires h != [] && tolerance < 0 && x in nodes && EndsNewest(h, nodes[x].series)
    ensures var s := nodes[x].series;
      && s != [] && FirstGreatest(h, s[|s| - 1])
      && x in PosesAt(nodes, stamp, tolerance) && PosesAt(nodes, stamp, tolerance)[x] == s[|s| - 1].value
  {
  }

  lemma {:induction false} InTree<G>(history: seq<Message<G>>, x: string)
    requires Received(history, x) != []
    ensures x in Built(history)
    decreases |history|
  {
    var init, last := history[..|history| - 1], history[|history| - 1];
    if last.0.child != x { InTree(init, x); }
  }
}
