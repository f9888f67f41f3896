/**
 The master's versioned log of nodes coming and going, the compacted lists it answers with, and
 what replaying them does to a node's view of its peers. A version is handed out first and its slot
 filled later, so a log may have blank slots, and other slots behind them may be filled already.
 */
module RegistryLog {

  type Address = (string, nat)

  /** One logged command: a node was added or deleted. */
  datatype Info = Info(ip: string, port: nat, name: string, isAdd: bool) {
    function Addr(): Address { (ip, port) }
  }

  /** A slot of the log; an addition whose node is gone points to the deletion. */
  datatype Entry = Entry(deletedAt: int, info: Info)

  /** What a slot holds before it is filled. */
  const BLANK := Entry(0, Info("", 0, "", true))

  type Log = seq<Entry>

  type View = map<string, Address>

  // ---------- Operations ----------

  /** The next version is handed out. */
  function Allocate(log: Log): (log': Log)
  {
    log + [BLANK]
  }

  function FillAdd(log: Log, v: nat, name: string, ip: string, port: nat): (log': Log)
    requires v < |log|
  {
    log[v := Entry(-1, Info(ip, port, name, true))]
  }

  function FillDelete(log: Log, d: nat, r: nat): (log': Log)
    requires r < |log| && d < |log|
  {
    log[d := Entry(-1, log[r].info.(isAdd := false))][r := log[r].(deletedAt := d)]
  }

  /** No slot of the range is blank. */
  predicate AllFilled(log: Log, from: nat, to: nat)
    requires to <= |log|
  {
    forall i :: from <= i < to ==> log[i] != BLANK
  }

  /** The entry is part of the list that starts at `from`: a node that is still there, or the
      deletion of one added before. */
  ghost predicate Kept(log: Log, from: nat, i: nat)
    requires i < |log|
  {
    log[i].deletedAt <= 0 && forall a :: from <= a < i ==> log[a].deletedAt != i
  }

  /** The list from version `from` up to, not including, version `to`. */
  ghost function Compact(log: Log, from: nat, to: nat): (cmds: seq<Info>)
    requires to <= |log|
  {
    if to <= from then []
    else Compact(log, from, to - 1) + if Kept(log, from, to - 1) then [log[to - 1].info] else []
  }

  /** What a node does with one command (`regist_node`, `delete_node`). */
  function ApplyCmd(v: View, cmd: Info): (v': View)
  {
    if cmd.isAdd then v[cmd.name := cmd.Addr()] else v - {cmd.name}
  }

  function Replay(v: View, cmds: seq<Info>): (v': View)
  {
    if cmds == [] then v else ApplyCmd(Replay(v, cmds[..|cmds| - 1]), cmds[|cmds| - 1])
  }

  lemma {:induction false} ReplayConcat(v: View, a: seq<Info>, b: seq<Info>)
    ensures Replay(v, a + b) == Replay(Replay(v, a), b)
    decreases |b|
  {
    if b == [] {
      assert a + b == a;
    } else {
      ReplayConcat(v, a, b[..|b| - 1]);
      assert (a + b)[..|a + b| - 1] == a + b[..|b| - 1];
    }
  }

  lemma ReplaySnoc(v: View, cmds: seq<Info>, cmd: Info)
    ensures Replay(v, cmds + [cmd]) == ApplyCmd(Replay(v, cmds), cmd)
  {
    assert (cmds + [cmd])[..|cmds|] == cmds;
  }

  // ---------- Well-formed logs ----------

  predicate IsAdd(log: Log, a: int)
  {
    0 <= a < |log| && log[a] != BLANK && log[a].info.isAdd
  }

  predicate Alive(log: Log, a: int)
  {
    IsAdd(log, a) && log[a].deletedAt == -1
  }

  /** d is the deletion of the addition a. */
  predicate Closes(log: Log, a: int, d: int)
  {
    IsAdd(log, a) && a < d < |log| && log[a].deletedAt == d && log[d] == Entry(-1, log[a].info.(isAdd := false))
  }

  /** Every deleted addition points to its deletion, which lies ahead. */
  ghost predicate AddsClosed(log: Log)
  {
    forall a :: IsAdd(log, a) && log[a].deletedAt != -1 ==> Closes(log, a, log[a].deletedAt)
  }

  /** Every deletion is pointed to. */
  ghost predicate DeletesOpened(log: Log)
  {
    forall d :: 0 <= d < |log| && !log[d].info.isAdd ==> log[d].deletedAt == -1 && Opened(log, d)
  }

  ghost predicate Opened(log: Log, d: int)
  {
    exists a :: Closes(log, a, d)
  }

  /** A name is added again only after it was deleted. */
  ghost predicate NamesOrdered(log: Log)
  {
    forall a, b :: IsAdd(log, a) && IsAdd(log, b) && a < b && log[a].info.name == log[b].info.name ==>
      -1 < log[a].deletedAt < b
  }

  ghost predicate Wf(log: Log)
  {
    AddsClosed(log) && DeletesOpened(log) && NamesOrdered(log)
  }

  /** Every addition of the name so far was deleted before version v. */
  ghost predicate Free(log: Log, v: nat, name: string)
  {
    forall a :: IsAdd(log, a) && log[a].info.name == name ==> -1 < log[a].deletedAt < v
  }

  ghost predicate NameAlive(log: Log, name: string)
  {
    exists a :: Alive(log, a) && log[a].info.name == name
  }

  lemma AllocateWf(log: Log)
    requires Wf(log)
    ensures Wf(Allocate(log))
    ensures forall n :: NameAlive(Allocate(log), n) <==> NameAlive(log, n)
    ensures forall n :: !NameAlive(log, n) ==> Free(Allocate(log), |log|, n)
  {
    var log' := Allocate(log);
    assert forall a :: IsAdd(log', a) <==> IsAdd(log, a);
    assert forall a :: Alive(log', a) <==> Alive(log, a);
    assert forall a, d :: Closes(log, a, d) ==> Closes(log', a, d);
    forall a | IsAdd(log', a) && log'[a].deletedAt != -1 ensures Closes(log', a, log'[a].deletedAt) {
      assert Closes(log, a, log[a].deletedAt);
    }
    forall d | 0 <= d < |log'| && !log'[d].info.isAdd ensures log'[d].deletedAt == -1 && Opened(log', d) {
      assert Opened(log, d);
    }
  }

  lemma FillAddWf(log: Log, v: nat, name: string, ip: string, port: nat)
    requires Wf(log) && v < |log| && log[v] == BLANK && Free(log, v, name)
    ensures Wf(FillAdd(log, v, name, ip, port))
    ensures forall n :: NameAlive(FillAdd(log, v, name, ip, port), n) <==> NameAlive(log, n) || n == name
  {
    FillAddCloses(log, v, name, ip, port);
    FillAddNames(log, v, name, ip, port);
    var log' := FillAdd(log, v, name, ip, port);
    assert forall a :: IsAdd(log', a) ==> a == v || (IsAdd(log, a) && log'[a] == log[a]);
  }

  lemma FillAddCloses(log: Log, v: nat, name: string, ip: string, port: nat)
    requires AddsClosed(log) && DeletesOpened(log) && v < |log| && log[v] == BLANK
    ensures AddsClosed(FillAdd(log, v, name, ip, port)) && DeletesOpened(FillAdd(log, v, name, ip, port))
  {
    var log' := FillAdd(log, v, name, ip, port);
    assert forall a, d :: Closes(log, a, d) ==> Closes(log', a, d);
    forall a | IsAdd(log', a) && log'[a].deletedAt != -1 ensures Closes(log', a, log'[a].deletedAt) {
      assert IsAdd(log, a) && Closes(log, a, log[a].deletedAt);
    }
    forall d | 0 <= d < |log'| && !log'[d].info.isAdd ensures log'[d].deletedAt == -1 && Opened(log', d) {
      assert Opened(log, d);
      var a :| Closes(log, a, d);
      assert Closes(log', a, d);
    }
  }

  lemma FillAddNames(log: Log, v: nat, name: string, ip: string, port: nat)
    requires v < |log| && log[v] == BLANK
    ensures forall n :: NameAlive(FillAdd(log, v, name, ip, port), n) <==> NameAlive(log, n) || n == name
  {
    var log' := FillAdd(log, v, name, ip, port);
    assert forall a :: Alive(log', a) <==> Alive(log, a) || a == v;
    assert Alive(log', v);
  }

  lemma FillDeleteWf(log: Log, d: nat, r: nat)
    requires Wf(log) && r < d < |log| && log[d] == BLANK && Alive(log, r)
    ensures Wf(FillDelete(log, d, r))
    ensures forall n :: NameAlive(FillDelete(log, d, r), n) <==> NameAlive(log, n) && n != log[r].info.name
  {
    FillDeleteCloses(log, d, r);
    FillDeleteOrdered(log, d, r);
    FillDeleteNames(log, d, r);
  }

  lemma FillDeleteOrdered(log: Log, d: nat, r: nat)
    requires NamesOrdered(log) && r < d < |log| && log[d] == BLANK && Alive(log, r)
    ensures NamesOrdered(FillDelete(log, d, r))
  {
    var log' := FillDelete(log, d, r);
    forall a, b | IsAdd(log', a) && IsAdd(log', b) && a < b && log'[a].info.name == log'[b].info.name
      ensures -1 < log'[a].deletedAt < b
    {
      assert IsAdd(log, a) && IsAdd(log, b);
      assert a != r;
    }
  }

  lemma FillDeleteNames(log: Log, d: nat, r: nat)
    requires NamesOrdered(log) && r < d < |log| && log[d] == BLANK && Alive(log, r)
    ensures forall n :: NameAlive(FillDelete(log, d, r), n) <==> NameAlive(log, n) && n != log[r].info.name
  {
    var log' := FillDelete(log, d, r);
    forall n ensures NameAlive(log', n) <==> NameAlive(log, n) && n != log[r].info.name
    {
      if NameAlive(log, n) && n != log[r].info.name {
        var a :| Alive(log, a) && log[a].info.name == n;
        assert Alive(log', a);
      }
      if NameAlive(log', n) {
        var a :| Alive(log', a) && log'[a].info.name == n;
        assert Alive(log, a) && a != r;
        assert IsAdd(log, a) && IsAdd(log, r);
      }
    }
  }

  lemma FillDeleteCloses(log: Log, d: nat, r: nat)
    requires AddsClosed(log) && DeletesOpened(log) && r < d < |log| && log[d] == BLANK && Alive(log, r)
    ensures AddsClosed(FillDelete(log, d, r)) && DeletesOpened(FillDelete(log, d, r))
  {
    var log' := FillDelete(log, d, r);
    assert Closes(log', r, d);
    assert forall a, e :: Closes(log, a, e) ==> Closes(log', a, e);
    forall a | IsAdd(log', a) && log'[a].deletedAt != -1 ensures Closes(log', a, log'[a].deletedAt)
    {
      if a != r { assert IsAdd(log, a) && Closes(log, a, log[a].deletedAt); }
    }
    forall e | 0 <= e < |log'| && !log'[e].info.isAdd ensures log'[e].deletedAt == -1 && Opened(log', e)
    {
      if e != d {
        assert Opened(log, e);
        var a :| Closes(log, a, e);
        assert Closes(log', a, e);
      }
    }
  }

  /** Filling a slot leaves other names as free as they were. */
  lemma FreeKeeps(log: Log, log': Log, u: nat, name: string)
    requires Free(log, u, name)
    requires forall a :: IsAdd(log', a) && log'[a].info.name == name ==> IsAdd(log, a) && log'[a] == log[a]
    ensures Free(log', u, name)
  {
  }

  // ---------- What a list says per name ----------

  lemma KeptPair(log: Log, from: nat, i: nat, j: nat)
    requires Wf(log) && from <= i < j < |log| && log[i].info.name == log[j].info.name
    requires log[i] != BLANK && log[j] != BLANK
    requires Kept(log, from, i) && Kept(log, from, j)
    ensures !log[i].info.isAdd && log[j].info.isAdd
  {
    KeptDelete(log, from, i);
    KeptDelete(log, from, j);
    assert IsAdd(log, i) <==> log[i].info.isAdd;
    assert IsAdd(log, j) <==> log[j].info.isAdd;
  }

  lemma KeptDelete(log: Log, from: nat, i: nat)
    requires Wf(log) && from <= i < |log| && Kept(log, from, i)
    ensures !log[i].info.isAdd ==> exists a :: a < from && Closes(log, a, i)
  {
    if !log[i].info.isAdd {
      assert Opened(log, i);
      var a :| Closes(log, a, i);
      assert a < from;
    }
  }

  lemma {:induction false} CompactOrigin(log: Log, from: nat, to: nat, p: nat) returns (i: nat)
    requires to <= |log| && p < |Compact(log, from, to)|
    ensures from <= i < to && Kept(log, from, i) && Compact(log, from, to)[p] == log[i].info
    decreases (to)
  {
    if |Compact(log, from, to - 1)| > p {
      i := CompactOrigin(log, from, to - 1, p);
    } else {
      i := to - 1;
    }
  }

  lemma {:induction false} CompactOrigins(log: Log, from: nat, to: nat, p: nat, q: nat) returns (i: nat, j: nat)
    requires to <= |log| && p < q < |Compact(log, from, to)|
    ensures from <= i < j < to && Kept(log, from, i) && Kept(log, from, j)
    ensures Compact(log, from, to)[p] == log[i].info && Compact(log, from, to)[q] == log[j].info
    decreases (to)
  {
    var init := Compact(log, from, to - 1);
    if q < |init| {
      i, j := CompactOrigins(log, from, to - 1, p, q);
    } else {
      i := CompactOrigin(log, from, to - 1, p);
      j := to - 1;
    }
  }

  /** In any list, with any bounds, a name occurs at most twice: deleted, then added. */
  lemma OneDeleteThenOneAdd(log: Log, from: nat, to: nat, p: nat, q: nat)
    requires Wf(log) && to <= |log| && AllFilled(log, from, to)
    requires p < q < |Compact(log, from, to)|
    requires Compact(log, from, to)[p].name == Compact(log, from, to)[q].name
    ensures !Compact(log, from, to)[p].isAdd && Compact(log, from, to)[q].isAdd
  {
    var i, j := CompactOrigins(log, from, to, p, q);
    KeptPair(log, from, i, j);
  }

  // ---------- Views ----------

  /** a explains the name's address in a view of the log before version k: an addition other than
      the viewer's own, not deleted before k; inside a list started at `from`, not deleted at all. */
  ghost predicate Explains(log: Log, own: int, from: nat, k: nat, a: int, name: string, addr: Address)
  {
    && IsAdd(log, a) && a < k && a != own
    && log[a].info.name == name && log[a].info.Addr() == addr
    && (log[a].deletedAt == -1 || (a < from && log[a].deletedAt >= k))
  }

  ghost predicate Explained(log: Log, own: int, from: nat, k: nat, name: string, addr: Address)
  {
    exists a :: Explains(log, own, from, k, a, name, addr)
  }

  /** The view is between the nodes alive now and the nodes alive at version k. */
  ghost predicate Sees(log: Log, own: int, from: nat, k: nat, v: View)
  {
    && (forall n :: n in v ==> Explained(log, own, from, k, n, v[n]))
    && (forall a :: Alive(log, a) && a < k && a != own ==>
          log[a].info.name in v && v[log[a].info.name] == log[a].info.Addr())
  }

  lemma SeesAdd(log: Log, own: int, from: nat, i: nat, v: View)
    requires Wf(log) && from <= i != own && IsAdd(log, i) && Sees(log, own, from, i, v)
    ensures Sees(log, own, from, i + 1, if log[i].deletedAt == -1 then ApplyCmd(v, log[i].info) else v)
  {
    var v' := if log[i].deletedAt == -1 then ApplyCmd(v, log[i].info) else v;
    forall n | n in v' ensures Explained(log, own, from, i + 1, n, v'[n])
    {
      if log[i].deletedAt == -1 && n == log[i].info.name {
        assert Explains(log, own, from, i + 1, i, n, v'[n]);
      } else {
        StillExplained(log, own, from, i, n, v[n]);
      }
    }
    forall a | Alive(log, a) && a < i + 1 && a != own
      ensures log[a].info.name in v' && v'[log[a].info.name] == log[a].info.Addr()
    {
      assert IsAdd(log, i) && (a < i ==> !(Alive(log, i) && log[a].info.name == log[i].info.name));
    }
  }

  lemma StillExplained(log: Log, own: int, from: nat, i: nat, n: string, addr: Address)
    requires AddsClosed(log) && IsAdd(log, i) && Explained(log, own, from, i, n, addr)
    ensures Explained(log, own, from, i + 1, n, addr)
  {
    var a :| Explains(log, own, from, i, a, n, addr);
    assert log[a].deletedAt != -1 ==> Closes(log, a, log[a].deletedAt);
    assert Explains(log, own, from, i + 1, a, n, addr);
  }

  /** A node alive at the end of the log is not named by later commands. */
  lemma OthersName(log: Log, a: int, i: int)
    requires Wf(log) && Alive(log, a) && a < i < |log| && log[i] != BLANK
    ensures log[a].info.name != log[i].info.name
  {
    if log[i].info.isAdd {
      assert IsAdd(log, i);
    } else {
      assert Opened(log, i);
      var d :| Closes(log, d, i);
      assert IsAdd(log, d);
    }
  }

  lemma SeesDelete(log: Log, own: int, from: nat, i: nat, v: View)
    requires Wf(log) && from <= i < |log| && !log[i].info.isAdd && Sees(log, own, from, i, v)
    ensures Sees(log, own, from, i + 1, if Kept(log, from, i) then ApplyCmd(v, log[i].info) else v)
  {
    assert Opened(log, i);
    var d :| Closes(log, d, i);
    KeptDeleteIff(log, from, i, d);
    var v' := if d < from then ApplyCmd(v, log[i].info) else v;
    forall n | n in v' ensures Explained(log, own, from, i + 1, n, v'[n])
    {
      DeleteExplains(log, own, from, i, d, n, v[n]);
    }
    forall a | Alive(log, a) && a < i + 1 && a != own
      ensures log[a].info.name in v' && v'[log[a].info.name] == log[a].info.Addr()
    {
      OthersName(log, a, i);
    }
  }

  lemma DeleteExplains(log: Log, own: int, from: nat, i: nat, d: int, n: string, addr: Address)
    requires Wf(log) && i < |log| && Closes(log, d, i) && Explained(log, own, from, i, n, addr)
    requires d < from ==> n != log[i].info.name
    ensures Explained(log, own, from, i + 1, n, addr)
  {
    var a :| Explains(log, own, from, i, a, n, addr);
    if log[a].deletedAt == i {
      SameDeletion(log, a, d, i);
    }
    assert Explains(log, own, from, i + 1, a, n, addr);
  }

  lemma KeptDeleteIff(log: Log, from: nat, i: nat, d: int)
    requires Wf(log) && i < |log| && Closes(log, d, i)
    ensures Kept(log, from, i) <==> d < from
  {
    if d < from {
      forall b | from <= b < i ensures log[b].deletedAt != i
      {
        if log[b].deletedAt == i { SameDeletion(log, d, b, i); }
      }
    }
  }

  lemma SameDeletion(log: Log, a: int, b: int, d: int)
    requires Wf(log) && 0 <= a < |log| && 0 <= b < |log| && 0 < d
    requires log[a].deletedAt == d && log[b].deletedAt == d
    ensures a == b
  {
    assert IsAdd(log, a) && IsAdd(log, b);
    assert Closes(log, a, d) && Closes(log, b, d);
  }

  lemma KeptAdd(log: Log, from: nat, i: nat)
    requires Wf(log) && from <= i && IsAdd(log, i)
    ensures Kept(log, from, i) <==> log[i].deletedAt == -1
  {
    assert IsAdd(log, i) && (log[i].deletedAt != -1 ==> Closes(log, i, log[i].deletedAt));
    forall a | from <= a < i ensures log[a].deletedAt != i
    {
      assert IsAdd(log, a) || log[a].deletedAt == -1 || log[a] == BLANK;
    }
  }

  lemma ListStep(log: Log, own: int, from: nat, i: nat, v: View, w: View)
    requires Wf(log) && from <= i < |log| && log[i] != BLANK && i != own && Sees(log, own, from, i, v)
    requires w == if Kept(log, from, i) then ApplyCmd(v, log[i].info) else v
    ensures Sees(log, own, from, i + 1, w)
  {
    if log[i].info.isAdd {
      KeptAdd(log, from, i);
      SeesAdd(log, own, from, i, v);
    } else {
      SeesDelete(log, own, from, i, v);
    }
  }

  /** Replaying a list, whatever its bounds, moves a view from its start to its end. */
  lemma {:induction false} ReplayList(log: Log, own: int, from: nat, to: nat, v: View) returns (w: View)
    requires Wf(log) && from <= to <= |log| && AllFilled(log, from, to) && !(from <= own < to)
    requires Sees(log, own, from, from, v)
    ensures w == Replay(v, Compact(log, from, to)) && Sees(log, own, from, to, w)
    decreases (to)
  {
    if from == to {
      w := v;
    } else {
      var before := ReplayList(log, own, from, to - 1, v);
      w := ReplayStep(log, own, from, to, v, before);
    }
  }

  lemma ReplayStep(log: Log, own: int, from: nat, to: nat, v: View, before: View) returns (w: View)
    requires Wf(log) && from < to <= |log| && log[to - 1] != BLANK && to - 1 != own
    requires before == Replay(v, Compact(log, from, to - 1)) && Sees(log, own, from, to - 1, before)
    ensures w == Replay(v, Compact(log, from, to)) && Sees(log, own, from, to, w)
  {
    w := ReplayNext(log, from, to, v, before);
    ListStep(log, own, from, to - 1, before, w);
  }

  lemma ReplayNext(log: Log, from: nat, to: nat, v: View, before: View) returns (w: View)
    requires from < to <= |log| && before == Replay(v, Compact(log, from, to - 1))
    ensures w == Replay(v, Compact(log, from, to))
    ensures w == if Kept(log, from, to - 1) then ApplyCmd(before, log[to - 1].info) else before
  {
    var cmds := Compact(log, from, to - 1);
    ReplaySnoc(v, cmds, log[to - 1].info);
    assert cmds + [] == cmds;
    w := Replay(v, Compact(log, from, to));
  }

  /** The end of one list is the start of the next. */
  lemma Rebase(log: Log, own: int, from: nat, k: nat, v: View)
    requires from <= k && Sees(log, own, from, k, v)
    ensures Sees(log, own, k, k, v)
  {
    forall n | n in v ensures Explained(log, own, k, k, n, v[n])
    {
      var a :| Explains(log, own, from, k, a, n, v[n]);
      assert Explains(log, own, k, k, a, n, v[n]);
    }
  }

  /** The viewer's own entry is stepped over. */
  lemma SkipOwn(log: Log, own: nat, v: View)
    requires Wf(log) && IsAdd(log, own) && Sees(log, own, own, own, v)
    ensures Sees(log, own, own + 1, own + 1, v)
  {
    forall n | n in v ensures Explained(log, own, own + 1, own + 1, n, v[n])
    {
      var a :| Explains(log, own, own, own, a, n, v[n]);
      assert log[a].deletedAt != -1 ==> Closes(log, a, log[a].deletedAt);
      assert Explains(log, own, own + 1, own + 1, a, n, v[n]);
    }
  }

  /** The log may grow behind a view, and slots behind it may be filled. */
  lemma SeesAllocate(log: Log, own: int, k: nat, v: View)
    requires k <= |log| && Sees(log, own, k, k, v)
    ensures Sees(Allocate(log), own, k, k, v)
  {
    var log' := Allocate(log);
    forall n | n in v ensures Explained(log', own, k, k, n, v[n])
    {
      var a :| Explains(log, own, k, k, a, n, v[n]);
      assert Explains(log', own, k, k, a, n, v[n]);
    }
    assert forall a :: Alive(log', a) && a < k ==> Alive(log, a);
  }

  lemma SeesFillAdd(log: Log, own: int, k: nat, v: View, slot: nat, name: string, ip: string, port: nat)
    requires k <= slot < |log| && log[slot] == BLANK && Sees(log, own, k, k, v)
    ensures Sees(FillAdd(log, slot, name, ip, port), own, k, k, v)
  {
    var log' := FillAdd(log, slot, name, ip, port);
    forall n | n in v ensures Explained(log', own, k, k, n, v[n])
    {
      var a :| Explains(log, own, k, k, a, n, v[n]);
      assert Explains(log', own, k, k, a, n, v[n]);
    }
    assert forall a :: Alive(log', a) && a < k ==> Alive(log, a);
  }

  lemma SeesFillDelete(log: Log, own: int, k: nat, v: View, d: nat, r: nat)
    requires k <= d < |log| && r < d && log[d] == BLANK && Alive(log, r) && Sees(log, own, k, k, v)
    ensures Sees(FillDelete(log, d, r), own, k, k, v)
  {
    var log' := FillDelete(log, d, r);
    forall n | n in v ensures Explained(log', own, k, k, n, v[n])
    {
      var a :| Explains(log, own, k, k, a, n, v[n]);
      assert Explains(log', own, k, k, a, n, v[n]);
    }
    assert forall a :: Alive(log', a) && a < k ==> Alive(log, a);
  }

  /** a is the last addition of its name. */
  ghost predicate Latest(log: Log, a: int)
  {
    IsAdd(log, a) && forall b :: IsAdd(log, b) && log[b].info.name == log[a].info.name ==> b <= a
  }

  /** The view holds exactly the names alive, other than the viewer's, at their latest addresses. */
  ghost predicate Current(log: Log, own: int, v: View)
  {
    && (forall n :: n in v <==> NameAlive(log, n) && !(Alive(log, own) && log[own].info.name == n))
    && (forall n :: n in v ==> exists a :: Latest(log, a) && log[a].info.name == n && v[n] == log[a].info.Addr())
  }

  lemma CaughtUp(log: Log, own: int, from: nat, v: View)
    requires Wf(log) && Sees(log, own, from, |log|, v) && (own == -1 || Alive(log, own))
    ensures Current(log, own, v)
  {
    forall n ensures n in v <==> NameAlive(log, n) && !(Alive(log, own) && log[own].info.name == n)
    {
      if n in v {
        var a :| Explains(log, own, from, |log|, a, n, v[n]);
        assert Alive(log, a) by { if log[a].deletedAt != -1 { assert Closes(log, a, log[a].deletedAt); } }
        assert Alive(log, own) ==> log[own].info.name != n;
      }
    }
    forall n | n in v ensures exists a :: Latest(log, a) && log[a].info.name == n && v[n] == log[a].info.Addr()
    {
      var a :| Explains(log, own, from, |log|, a, n, v[n]);
      assert Alive(log, a) by { if log[a].deletedAt != -1 { assert Closes(log, a, log[a].deletedAt); } }
      assert Latest(log, a);
    }
  }

  lemma CurrentUnique(log: Log, own: int, v: View, w: View)
    requires Current(log, own, v) && Current(log, own, w)
    ensures v == w
  {
    forall n | n in v ensures v[n] == w[n]
    {
      var a :| Latest(log, a) && log[a].info.name == n && v[n] == log[a].info.Addr();
      var b :| Latest(log, b) && log[b].info.name == n && w[n] == log[b].info.Addr();
      assert a == b;
    }
    assert v.Keys == w.Keys;
  }

  // ---------- Compaction preserves meaning ----------

  function Infos(log: Log, from: nat, to: nat): (cmds: seq<Info>)
    requires from <= to <= |log|
  {
    if from == to then [] else Infos(log, from, to - 1) + [log[to - 1].info]
  }

  lemma RawStep(log: Log, i: nat, v: View)
    requires Wf(log) && i < |log| && log[i] != BLANK && Sees(log, -1, i, i, v)
    ensures Sees(log, -1, i + 1, i + 1, ApplyCmd(v, log[i].info))
  {
    var v' := ApplyCmd(v, log[i].info);
    forall n | n in v' ensures Explained(log, -1, i + 1, i + 1, n, v'[n])
    {
      RawExplains(log, i, v, n);
    }
    forall a | Alive(log, a) && a < i + 1
      ensures log[a].info.name in v' && v'[log[a].info.name] == log[a].info.Addr()
    {
      if a < i {
        OthersName(log, a, i);
      }
    }
  }

  lemma RawExplains(log: Log, i: nat, v: View, n: string)
    requires AddsClosed(log) && i < |log| && log[i] != BLANK && n in ApplyCmd(v, log[i].info)
    requires n in v ==> Explained(log, -1, i, i, n, v[n])
    ensures Explained(log, -1, i + 1, i + 1, n, ApplyCmd(v, log[i].info)[n])
  {
    if log[i].info.isAdd && n == log[i].info.name {
      assert IsAdd(log, i);
      assert Explains(log, -1, i + 1, i + 1, i, n, log[i].info.Addr());
    } else {
      var a :| Explains(log, -1, i, i, a, n, v[n]);
      assert log[a].deletedAt != -1 ==> Closes(log, a, log[a].deletedAt);
      assert Explains(log, -1, i + 1, i + 1, a, n, v[n]);
    }
  }

  lemma {:induction false} RawView(log: Log, k: nat)
    requires Wf(log) && k <= |log| && AllFilled(log, 0, k)
    ensures Sees(log, -1, k, k, Replay(map[], Infos(log, 0, k)))
  {
    if k != 0 {
      RawView(log, k - 1);
      RawStep(log, k - 1, Replay(map[], Infos(log, 0, k - 1)));
      var cmds := Infos(log, 0, k);
      assert cmds[..|cmds| - 1] == Infos(log, 0, k - 1);
    }
  }

  lemma {:induction false} InfosSplit(log: Log, from: nat, to: nat)
    requires from <= to <= |log|
    ensures Infos(log, 0, to) == Infos(log, 0, from) + Infos(log, from, to)
    decreases (to)
  {
    if from < to {
      InfosSplit(log, from, to - 1);
    }
  }

  /**
   Compaction preserves meaning: on the view the whole log leads to at version `from`, replaying
   the list up to the last version does what replaying every logged command since does.
   */
  lemma CompactionSound(log: Log, from: nat)
    requires Wf(log) && from <= |log| && AllFilled(log, 0, |log|)
    ensures var v := Replay(map[], Infos(log, 0, from));
      Replay(v, Compact(log, from, |log|)) == Replay(v, Infos(log, from, |log|))
  {
    var v := Replay(map[], Infos(log, 0, from));
    RawView(log, from);
    var w := ReplayList(log, -1, from, |log|, v);
    CaughtUp(log, -1, from, w);
    RawView(log, |log|);
    InfosSplit(log, from, |log|);
    ReplayConcat(map[], Infos(log, 0, from), Infos(log, from, |log|));
    CaughtUp(log, -1, |log|, Replay(v, Infos(log, from, |log|)));
    CurrentUnique(log, -1, w, Replay(v, Infos(log, from, |log|)));
  }

  // ---------- Slots not filled yet ----------

  lemma {:induction false} CompactHas(slots: Log, from: nat, to: nat, i: nat)
    requires to <= |slots| && from <= i < to && Kept(slots, from, i)
    ensures slots[i].info in Compact(slots, from, to)
    decreases (to)
  {
    if i < to - 1 {
      CompactHas(slots, from, to - 1, i);
    }
  }

  /** Every filled slot names a node. */
  predicate Named(log: Log)
  {
    forall i :: 0 <= i < |log| && log[i] != BLANK ==> log[i].info.name != ""
  }

  /**
   The code does not wait for slots to be filled. A list is free of nameless commands if and only if no
   slot in its range is still blank; a blank one is announced as the addition of a node without a name.
   */
  lemma NamelessIffBlank(log: Log, from: nat, to: nat)
    requires from <= to <= |log| && Wf(log) && Named(log)
    ensures (forall p :: 0 <= p < |Compact(log, from, to)| ==> Compact(log, from, to)[p].name != "")
      <==> AllFilled(log, from, to)
  {
    var cmds := Compact(log, from, to);
    if forall p :: 0 <= p < |cmds| ==> cmds[p].name != "" {
      forall i | from <= i < to ensures log[i] != BLANK
      {
        if log[i] == BLANK {
          BlankIsKept(log, from, i);
          CompactHas(log, from, to, i);
        }
      }
    } else {
      var p :| 0 <= p < |cmds| && cmds[p].name == "";
      var i := CompactOrigin(log, from, to, p);
    }
  }

  lemma BlankIsKept(log: Log, from: nat, i: nat)
    requires Wf(log) && i < |log| && log[i] == BLANK
    ensures Kept(log, from, i)
  {
    forall a | from <= a < i ensures log[a].deletedAt != i
    {
      assert IsAdd(log, a) || log[a].deletedAt == -1 || log[a] == BLANK;
      if IsAdd(log, a) && log[a].deletedAt != -1 {
        assert Closes(log, a, log[a].deletedAt);
      }
    }
  }

  /** A nameless command leaves a nameless node in the view, and nothing ever deletes it. */
  lemma {:induction false} NamelessStays(log: Log, from: nat, to: nat, v: View) returns (w: View)
    requires from <= to <= |log| && Wf(log) && Named(log)
    ensures w == Replay(v, Compact(log, from, to)) && ("" in v || !AllFilled(log, from, to) ==> "" in w)
    decreases (to)
  {
    if from == to {
      w := v;
    } else {
      var before := NamelessStays(log, from, to - 1, v);
      w := ReplayNext(log, from, to, v, before);
      NamelessStep(log, from, to, before, w);
    }
  }

  lemma NamelessStep(log: Log, from: nat, to: nat, before: View, w: View)
    requires from < to <= |log| && Wf(log) && Named(log)
    requires w == if Kept(log, from, to - 1) then ApplyCmd(before, log[to - 1].info) else before
    ensures "" in before || log[to - 1] == BLANK ==> "" in w
    ensures AllFilled(log, from, to - 1) && log[to - 1] != BLANK ==> AllFilled(log, from, to)
  {
    if log[to - 1] == BLANK {
      BlankIsKept(log, from, to - 1);
    }
  }
}
