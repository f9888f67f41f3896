/**
 The parameter server's table. A call that nobody interrupts is proved to be the steps the
 interleaved model cuts it into, on its own parameter, and to leave every other one alone.
 */
module ParamServers {
  import opened Wrappers
  import opened ParamWatch

  datatype SetStatus = NORMAL | NOT_CHANGEABLE | TEMP_NOT_AVAILABLE

  /** `set` past its checks, by a caller in the node and by one outside. */
  function LocalSet<V>(p: Param<V>, v: V): Param<V>
  {
    ParamStep(ParamStep(ParamStep(p, LocalCheck), SetWrite(v)), SetFinish)
  }

  function RemoteSet<V>(p: Param<V>, v: V): Param<V>
  {
    ParamStep(ParamStep(ParamStep(ParamStep(p, RemoteConst), RemoteFind), SetWrite(v)), SetFinish)
  }

  function Declaration<V>(p: Param<V>, v: V, constant: bool): Param<V>
  {
    ParamStep(ParamStep(ParamStep(p, DeclareCheck), DeclareWrite(v, constant)), DeclareFinish)
  }

  class ParamRpcServer<V(==)> {
    var params: map<string, V>
    var versions: map<string, nat>
    var constants: set<string>
    ghost var writes: map<string, seq<V>>

    /** A parameter as the interleaved model has it, with nobody in the middle of a call. */
    ghost function Of(name: string): Param<V>
      reads this
    {
      Param(if name in params then Some(params[name]) else None,
            if name in versions then versions[name] else 0,
            name in constants, Free, 0, 0, 0,
            if name in writes then writes[name] else [])
    }

    ghost predicate Valid()
      reads this
    {
      constants <= params.Keys && forall name :: ParamOk(Of(name))
    }

    constructor ()
      ensures Valid() && forall name :: Of(name) == Start<V>().p
    {
      params, versions, constants, writes := map[], map[], {}, map[];
    }

    twostate lemma OthersOk(name: string)
      requires old(Valid()) && ParamOk(Of(name)) && constants <= params.Keys
      requires forall other :: other != name ==> Of(other) == old(Of(other))
      ensures Valid()
    {
      forall other | other != name ensures ParamOk(Of(other)) {
        assert old(ParamOk(Of(other)));
      }
    }

    /** Declares a parameter; one that is declared already stays as it is. */
    method Declare(name: string, v: V, constant: bool)
      requires Valid()
      modifies this
      ensures Valid() && name in params
      ensures Of(name) == if name in old(params) then old(Of(name)) else Declaration(old(Of(name)), v, constant)
      ensures forall other :: other != name ==> Of(other) == old(Of(other))
    {
      if name in params {
        return;
      }
      assert ParamOk(Of(name));
      writes := writes[name := Of(name).writes + [v]];
      params := params[name := v];
      versions := versions[name := 1];
      if constant {
        constants := constants + {name};
      }
      assert Of(name) == Declaration(old(Of(name)), v, constant);
      OthersOk(name);
    }

    /** Sets a parameter from inside the node; an undeclared or constant one stays as it is. */
    method Set(name: string, v: V)
      requires Valid()
      modifies this
      ensures Valid() && params.Keys == old(params.Keys)
      ensures Of(name) == if name in params && name !in constants then LocalSet(old(Of(name)), v) else old(Of(name))
      ensures forall other :: other != name ==> Of(other) == old(Of(other))
    {
      if name !in params || name in constants {
        return;
      }
      Write(name, v);
    }

    /** Sets a parameter from outside. */
    method SetRemote(name: string, v: V) returns (status: SetStatus)
      requires Valid()
      modifies this
      ensures Valid() && params.Keys == old(params.Keys)
      ensures status == NORMAL <==> name in params && name !in constants
      ensures status == NOT_CHANGEABLE <==> name in constants
      ensures Of(name) == if status == NORMAL then RemoteSet(old(Of(name)), v) else old(Of(name))
      ensures forall other :: other != name ==> Of(other) == old(Of(other))
    {
      if name in constants {
        status := NOT_CHANGEABLE;
      } else if name !in params {
        status := TEMP_NOT_AVAILABLE;
      } else {
        Write(name, v);
        status := NORMAL;
      }
    }

    /** The part under the lock: the value, then the version. */
    method Write(name: string, v: V)
      requires Valid() && name in params && name !in constants
      modifies this
      ensures Valid() && params.Keys == old(params.Keys) && constants == old(constants)
      ensures var p := old(Of(name));
        Of(name) == p.(value := Some(v), version := p.version + 1, writes := p.writes + [v])
      ensures forall other :: other != name ==> Of(other) == old(Of(other))
    {
      assert ParamOk(Of(name));
      writes := writes[name := (if name in writes then writes[name] else []) + [v]];
      params := params[name := v];
      versions := versions[name := (if name in versions then versions[name] else 0) + 1];
      OthersOk(name);
    }

    /** One turn of a watcher's loop: what it sends, and the version it then waits at. */
    method WatchTurn(name: string, version: nat) returns (reply: Reply<V>, version': nat)
      requires Valid()
      ensures reply == Current(Of(name))
      ensures version' == if name in params then Of(name).version else version
      ensures name in params ==> version' > 0
    {
      assert ParamOk(Of(name));
      version' := version;
      if name in params {
        version' := if name in versions then versions[name] else 0;
        reply := Normal(params[name]);
      } else {
        reply := NotAvailable;
      }
    }
  }
}
