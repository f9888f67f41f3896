/** The class `Registrar`: the log in a growing vector, the names alive, and the listing loop. */
module Registrars {
  import opened RegistryLog

  /** The first n slots of a vector that goes on with blank ones. */
  function Padded(nodes: seq<Entry>, n: nat): (log: Log)
    ensures |log| == n && forall i :: 0 <= i < n ==> log[i] == if i < |nodes| then nodes[i] else BLANK
  {
    if n <= |nodes| then nodes[..n] else nodes + seq(n - |nodes|, _ => BLANK)
  }

  class Registrar {
    var version: nat
    var nodes: seq<Entry>
    var aliveNodes: set<string>

    /** The slots of the versions handed out so far. The vector may still end in front of some of them,
        and holds blank slots behind them. */
    ghost function Slots(): (log: Log)
      reads this
    {
      Padded(nodes, version)
    }

    ghost predicate Valid()
      reads this
    {
      && Wf(Slots())
      && (forall i :: version <= i < |nodes| ==> nodes[i] == BLANK)
      && forall n :: n in aliveNodes <==> NameAlive(Slots(), n)
    }

    constructor ()
      ensures Valid() && Slots() == []
    {
      version, nodes, aliveNodes := 0, [], {};
    }

    method FindExistNode(name: string) returns (found: bool)
      requires Valid()
      ensures found <==> NameAlive(Slots(), name)
    {
      found := name in aliveNodes;
    }

    /** `version++`, outside the lock. */
    method NextVersion() returns (v: nat)
      requires Valid()
      modifies this`version
      ensures Valid() && v == |old(Slots())| && Slots() == Allocate(old(Slots()))
    {
      AllocateWf(Slots());
      v := version;
      version := version + 1;
      assert Slots() == Allocate(old(Slots()));
    }

    /** Makes room for a version: the vector grows by a thousand blank slots at a time. */
    method Reserve(v: nat)
      modifies this`nodes
      ensures v < |nodes| && |old(nodes)| <= |nodes| && Slots() == old(Slots())
      ensures forall i :: 0 <= i < |nodes| ==> nodes[i] == if i < |old(nodes)| then old(nodes)[i] else BLANK
    {
      if |nodes| <= v {
        nodes := nodes + seq(v + 1000 - |nodes|, _ => BLANK);
      }
      assert Slots() == old(Slots());
    }

    /** Fills the slot of a version handed out before; the name is free. */
    method Registration(v: nat, name: string, ip: string, port: nat)
      requires Valid() && v < version && Slots()[v] == BLANK && Free(Slots(), v, name)
      modifies this
      ensures Valid() && version == old(version)
      ensures Slots() == FillAdd(old(Slots()), v, name, ip, port)
    {
      FillAddWf(Slots(), v, name, ip, port);
      Reserve(v);
      nodes := nodes[v := Entry(-1, Info(ip, port, name, true))];
      aliveNodes := aliveNodes + {name};
      assert Slots() == FillAdd(old(Slots()), v, name, ip, port);
    }

    /** The part of `deregistration` under the lock: fills the slot of a version handed out before, and
        points the addition to it. */
    method FillDeletion(deleted: nat, registered: nat)
      requires Valid() && registered < deleted < version && Slots()[deleted] == BLANK && Alive(Slots(), registered)
      modifies this
      ensures Valid() && version == old(version)
      ensures Slots() == FillDelete(old(Slots()), deleted, registered)
    {
      FillDeleteWf(Slots(), deleted, registered);
      Reserve(deleted);
      var info := nodes[registered].info.(isAdd := false);
      nodes := nodes[deleted := Entry(-1, info)];
      nodes := nodes[registered := nodes[registered].(deletedAt := deleted)];
      aliveNodes := aliveNodes - {info.name};
      assert Slots() == FillDelete(old(Slots()), deleted, registered);
    }

    /** Logs that the node registered at a version is gone. */
    method Deregistration(registered: nat)
      requires Valid() && Alive(Slots(), registered)
      modifies this
      ensures Valid() && Slots() == FillDelete(Allocate(old(Slots())), |old(Slots())|, registered)
    {
      var deleted := NextVersion();
      assert Alive(Slots(), registered);
      FillDeletion(deleted, registered);
    }

    /** The list for versions `from` to `last`, both included, as far as the vector reaches. */
    method List(from: nat, last: int) returns (reply: seq<Info>)
      requires Valid() && -1 <= last < version && last < |nodes|
      ensures reply == Compact(Slots(), from, last + 1)
    {
      reply := ListLoop(nodes, from, last, Slots());
    }
  }

  /** The loop of `list`: an addition that was deleted is left out, and so is its deletion. */
  method ListLoop(nodes: seq<Entry>, from: nat, last: int, ghost log: Log) returns (reply: seq<Info>)
    requires Wf(log) && -1 <= last < |log| && last < |nodes| && forall i :: 0 <= i <= last ==> nodes[i] == log[i]
    ensures reply == Compact(log, from, last + 1)
  {
    reply := [];
    var skip: set<int> := {};
    if from > last {
      return;
    }
    for i := from to last + 1
      invariant skip == Pointers(log, from, i)
      invariant reply == Compact(log, from, i)
    {
      ListNext(log, from, i);
      if i in skip {
        continue;
      }
      if nodes[i].deletedAt > 0 {
        skip := skip + {nodes[i].deletedAt};
        continue;
      }
      reply := reply + [nodes[i].info];
    }
  }

  /** The deletions that the entries from `from` to before i point to. */
  ghost function Pointers(log: Log, from: nat, i: nat): (skip: set<int>)
    requires i <= |log|
  {
    if i <= from then {}
    else Pointers(log, from, i - 1) + if log[i - 1].deletedAt > 0 then {log[i - 1].deletedAt} else {}
  }

  lemma {:induction false} PointersExact(log: Log, from: nat, i: nat, d: int)
    requires i <= |log|
    ensures d in Pointers(log, from, i) <==> d > 0 && exists a :: from <= a < i && log[a].deletedAt == d
  {
    if from < i {
      PointersExact(log, from, i - 1, d);
    }
  }

  /** One more version: skipped, skipping another, or listed. */
  lemma ListNext(log: Log, from: nat, i: nat)
    requires Wf(log) && from <= i < |log|
    ensures var skip, list := Pointers(log, from, i), Compact(log, from, i);
      var d := log[i].deletedAt;
      && Pointers(log, from, i + 1) == (if i !in skip && d > 0 then skip + {d} else skip)
      && Compact(log, from, i + 1) == (if i in skip || d > 0 then list else list + [log[i].info])
  {
    SkipsExact(log, from, i);
    assert Compact(log, from, i) + [] == Compact(log, from, i);
  }

  /** The loop's tests decide what the list keeps. */
  lemma SkipsExact(log: Log, from: nat, i: nat)
    requires Wf(log) && from <= i < |log|
    ensures Kept(log, from, i) <==> i !in Pointers(log, from, i) && log[i].deletedAt <= 0
    ensures i in Pointers(log, from, i) ==> log[i].deletedAt <= 0
  {
    PointersExact(log, from, i, i);
    if i in Pointers(log, from, i) {
      var a :| from <= a < i && log[a].deletedAt == i;
      assert IsAdd(log, a) && Closes(log, a, i);
    }
  }
}
