/**
 A parameter of a node, the threads that declare and set it, and a remote watcher. Every thread's
 accesses are separate steps that interleave freely: `declare` checks for the name before it takes
 the lock, `set` checks before it takes the lock and changes the value before it counts the version
 up, and the watcher loads the version without the lock and reads the value afterwards. A watcher
 changes nothing the threads or other watchers see, so one watcher stands for any of them.
 */
module ParamWatch {
  import opened Wrappers
  import opened Sequences

  datatype Reply<V> = NotAvailable | Normal(payload: V)

  /** Who holds the parameters' lock exclusively. */
  datatype Lock = Free | Declaring(constant: bool) | Setting

  /** The parameter. `declarers` found the name free and wait for the lock, `remotes` found it not
      constant and have yet to look for it, `ready` setters passed their checks and wait for the lock.
      `writes` records every value the parameter ever had. */
  datatype Param<V> = Param(
    value: Option<V>, version: nat, constant: bool, lock: Lock,
    declarers: nat, remotes: nat, ready: nat, writes: seq<V>)

  datatype Pc<V> = Top | Load | Read | Send(reply: Reply<V>) | Wait

  /** The server's thread of a watcher. `mark` counts the writes that had happened at its last read,
      `marks` has that number for each reply sent. */
  datatype Watcher<V> = Watcher(pc: Pc<V>, version: nat, mark: nat, sent: seq<Reply<V>>, marks: seq<nat>)

  /** The client's end: replies on their way, those that came, and the slot. `replaced` tells that the
      slot was renewed after the last reply came. */
  datatype Client<V> = Client(wire: seq<Reply<V>>, got: seq<Reply<V>>, slot: Reply<V>, replaced: bool)

  datatype Sys<V> = Sys(p: Param<V>, w: Watcher<V>, c: Client<V>)

  datatype Step<V> =
    | DeclareCheck
    | DeclareWrite(v: V, constant: bool)
    | DeclareFinish
    | LocalCheck
    | RemoteConst
    | RemoteFind
    | SetWrite(v: V)
    | SetFinish
    | WatchFind
    | WatchLoad
    | WatchRead
    | WatchSend
    | WatchWake
    | Receive
    | Replace

  function Start<V>(): Sys<V>
  {
    Sys(Param(None, 0, false, Free, 0, 0, 0, []), Watcher(Top, 0, 0, [], []), Client([], [], NotAvailable, true))
  }

  predicate Enabled<V>(s: Sys<V>, step: Step<V>)
  {
    match step
    case DeclareCheck => s.p.lock.Free? && s.p.value.None?
    case DeclareWrite(_, _) => s.p.lock.Free? && s.p.declarers > 0
    case DeclareFinish => s.p.lock.Declaring?
    case LocalCheck => s.p.lock.Free? && s.p.value.Some? && !s.p.constant
    case RemoteConst => !s.p.constant
    case RemoteFind => s.p.lock.Free? && s.p.remotes > 0
    case SetWrite(_) => s.p.lock.Free? && s.p.ready > 0 && s.p.value.Some?
    case SetFinish => s.p.lock.Setting?
    case WatchFind => s.w.pc.Top? && s.p.lock.Free?
    case WatchLoad => s.w.pc.Load?
    case WatchRead => s.w.pc.Read? && s.p.lock.Free? && s.p.value.Some?
    case WatchSend => s.w.pc.Send?
    case WatchWake => s.w.pc.Wait? && s.p.lock.Free? && s.p.value.Some? && s.w.version != s.p.version
    case Receive => s.c.wire != []
    case Replace => true
  }

  function Put<V>(p: Param<V>, v: V): Param<V>
  {
    p.(value := Some(v), writes := p.writes + [v])
  }

  /** The steps of declaring and setting threads. */
  function ParamStep<V>(p: Param<V>, step: Step<V>): Param<V>
  {
    match step
    case DeclareCheck => p.(declarers := p.declarers + 1)
    case DeclareWrite(v, constant) =>
      if p.declarers > 0 then Put(p, v).(lock := Declaring(constant), declarers := p.declarers - 1) else p
    case DeclareFinish =>
      if p.lock.Declaring? then p.(version := 1, constant := p.constant || p.lock.constant, lock := Free) else p
    case LocalCheck => p.(ready := p.ready + 1)
    case RemoteConst => p.(remotes := p.remotes + 1)
    case RemoteFind =>
      if p.remotes > 0 then p.(remotes := p.remotes - 1, ready := if p.value.Some? then p.ready + 1 else p.ready) else p
    case SetWrite(v) => if p.ready > 0 then Put(p, v).(lock := Setting, ready := p.ready - 1) else p
    case SetFinish => p.(version := p.version + 1, lock := Free)
    case _ => p
  }

  /** The watcher's loop. */
  function WatcherStep<V>(p: Param<V>, w: Watcher<V>, step: Step<V>): Watcher<V>
  {
    match step
    case WatchFind => w.(pc := if p.value.Some? then Load else Send(NotAvailable))
    case WatchLoad => w.(pc := Read, version := p.version)
    case WatchRead => if p.value.Some? then w.(pc := Send(Normal(p.value.value)), mark := |p.writes|) else w
    case WatchSend =>
      if w.pc.Send? then w.(pc := Wait, sent := w.sent + [w.pc.reply], marks := w.marks + [w.mark]) else w
    case WatchWake => w.(pc := Top)
    case _ => w
  }

  function ClientStep<V>(w: Watcher<V>, c: Client<V>, step: Step<V>): Client<V>
  {
    match step
    case WatchSend => if w.pc.Send? then c.(wire := c.wire + [w.pc.reply]) else c
    case Receive => if c.wire != [] then Client(c.wire[1..], c.got + [c.wire[0]], c.wire[0], false) else c
    case Replace => c.(slot := NotAvailable, replaced := true)
    case _ => c
  }

  function Apply<V>(s: Sys<V>, step: Step<V>): Sys<V>
  {
    Sys(ParamStep(s.p, step), WatcherStep(s.p, s.w, step), ClientStep(s.w, s.c, step))
  }

  predicate Legal<V>(s: Sys<V>, steps: seq<Step<V>>)
    decreases |steps|
  {
    steps == [] || (Enabled(s, steps[0]) && Legal(Apply(s, steps[0]), steps[1..]))
  }

  function Run<V>(s: Sys<V>, steps: seq<Step<V>>): Sys<V>
    decreases |steps|
  {
    if steps == [] then s else Run(Apply(s, steps[0]), steps[1..])
  }

  /** A `declare` that lost the race for the name writes all the same. */
  predicate Overwrites<V>(s: Sys<V>, step: Step<V>)
  {
    step.DeclareWrite? && s.p.value.Some?
  }

  /** No step of the run declares the parameter over again. */
  predicate DeclaredOnce<V>(s: Sys<V>, steps: seq<Step<V>>)
    decreases |steps|
  {
    steps == [] || (!Overwrites(s, steps[0]) && DeclaredOnce(Apply(s, steps[0]), steps[1..]))
  }

  // ------------------------------------------------------------------ what every step keeps

  ghost predicate ParamOk<V>(p: Param<V>)
  {
    if p.value.None? then
      p.version == 0 && p.lock.Free? && p.ready == 0 && p.writes == []
    else
      && |p.writes| == p.version + (if p.lock.Free? then 0 else 1)
      && |p.writes| > 0 && p.value == Some(p.writes[|p.writes| - 1])
      && (p.lock.Declaring? <==> p.version == 0)
  }

  /** What a reply read after `mark` writes says. */
  ghost predicate Says<V>(writes: seq<V>, reply: Reply<V>, mark: nat)
  {
    mark <= |writes| && reply == if mark == 0 then NotAvailable else Normal(writes[mark - 1])
  }

  predicate Ordered(marks: seq<nat>)
  {
    forall i, j :: 0 <= i < j < |marks| ==> marks[i] <= marks[j]
  }

  ghost predicate SentOk<V>(writes: seq<V>, sent: seq<Reply<V>>, marks: seq<nat>)
  {
    |sent| == |marks| && Ordered(marks) && forall i :: 0 <= i < |sent| ==> Says(writes, sent[i], marks[i])
  }

  ghost predicate WatcherOk<V>(p: Param<V>, w: Watcher<V>)
  {
    && SentOk(p.writes, w.sent, w.marks) && w.version <= p.version && w.mark <= |p.writes|
    && (forall i :: 0 <= i < |w.marks| ==> w.marks[i] <= w.mark)
    && (w.pc.Load? || w.pc.Read? ==> p.value.Some?)
    && (w.pc.Read? || w.version <= w.mark)
    && (w.pc.Send? ==> Says(p.writes, w.pc.reply, w.mark))
    && (w.pc.Wait? ==> |w.marks| > 0 && w.marks[|w.marks| - 1] == w.mark)
  }

  /** With the wire empty the slot holds the last reply, unless it was replaced since. */
  ghost predicate ClientOk<V>(w: Watcher<V>, c: Client<V>)
  {
    && w.sent == c.got + c.wire
    && (if c.replaced then c.slot == NotAvailable else |c.got| > 0 && c.slot == c.got[|c.got| - 1])
  }

  ghost predicate Inv<V>(s: Sys<V>)
  {
    ParamOk(s.p) && WatcherOk(s.p, s.w) && ClientOk(s.w, s.c)
  }

  lemma ParamKeeps<V>(s: Sys<V>, step: Step<V>)
    requires ParamOk(s.p) && Enabled(s, step) && !Overwrites(s, step)
    ensures ParamOk(ParamStep(s.p, step))
    ensures s.p.version <= ParamStep(s.p, step).version && s.p.writes <= ParamStep(s.p, step).writes
    ensures s.p.value.Some? ==> ParamStep(s.p, step).value.Some?
  {
  }

  /** More writes leave what was sent as it was. */
  lemma GrowKeeps<V>(p: Param<V>, r: Param<V>, w: Watcher<V>)
    requires WatcherOk(p, w) && p.version <= r.version && p.writes <= r.writes && (p.value.Some? ==> r.value.Some?)
    ensures WatcherOk(r, w)
  {
  }

  lemma WatcherKeeps<V>(s: Sys<V>, step: Step<V>)
    requires ParamOk(s.p) && WatcherOk(s.p, s.w) && Enabled(s, step)
    ensures WatcherOk(s.p, WatcherStep(s.p, s.w, step))
  {
  }

  lemma ClientKeeps<V>(s: Sys<V>, step: Step<V>)
    requires ClientOk(s.w, s.c) && Enabled(s, step)
    ensures ClientOk(WatcherStep(s.p, s.w, step), ClientStep(s.w, s.c, step))
  {
    var c := s.c;
    if step.WatchSend? {
      Assoc(c.got, c.wire, [s.w.pc.reply]);
    } else if step.Receive? {
      Assoc(c.got, [c.wire[0]], c.wire[1..]);
      assert [c.wire[0]] + c.wire[1..] == c.wire;
    }
  }

  lemma ApplyKeeps<V>(s: Sys<V>, step: Step<V>)
    requires Inv(s) && Enabled(s, step) && !Overwrites(s, step)
    ensures Inv(Apply(s, step))
  {
    ParamKeeps(s, step);
    WatcherKeeps(s, step);
    GrowKeeps(s.p, ParamStep(s.p, step), WatcherStep(s.p, s.w, step));
    ClientKeeps(s, step);
  }

  lemma {:induction false} RunKeeps<V>(s: Sys<V>, steps: seq<Step<V>>)
    requires Inv(s) && Legal(s, steps) && DeclaredOnce(s, steps)
    ensures Inv(Run(s, steps))
    decreases |steps|
  {
    if steps != [] {
      ApplyKeeps(s, steps[0]);
      RunKeeps(Apply(s, steps[0]), steps[1..]);
    }
  }

  // ------------------------------------------------------------------ no lost update

  /** The watcher sleeps, believing it is up to date, and no writer holds the lock. */
  predicate AtRest<V>(s: Sys<V>)
  {
    s.w.pc.Wait? && s.p.lock.Free? && s.w.version == s.p.version
  }

  /** What a client may expect of the parameter. */
  function Current<V>(p: Param<V>): Reply<V>
  {
    match p.value
    case None => NotAvailable
    case Some(v) => Normal(v)
  }

  /** A watcher at rest last sent the current value. */
  ghost predicate NothingLost<V>(s: Sys<V>)
  {
    AtRest(s) ==> |s.w.sent| > 0 && s.w.sent[|s.w.sent| - 1] == Current(s.p)
  }

  lemma InvNothingLost<V>(s: Sys<V>)
    requires Inv(s)
    ensures NothingLost(s)
    ensures AtRest(s) && s.c.wire == [] ==> (s.c.slot == Current(s.p) <==> !s.c.replaced || s.p.value.None?)
  {
    if AtRest(s) {
      var last := |s.w.sent| - 1;
      assert Says(s.p.writes, s.w.sent[last], s.w.marks[last]);
    }
  }

  /** In every interleaving that declares the parameter once, a watcher at rest last sent the current
      value; and once the replies have arrived the client's slot holds it, unless a later request
      replaced the slot. */
  lemma NoLostUpdate<V>(steps: seq<Step<V>>)
    requires Legal(Start<V>(), steps) && DeclaredOnce(Start(), steps)
    ensures NothingLost(Run(Start(), steps))
    ensures var s := Run(Start(), steps);
      AtRest(s) && s.c.wire == [] ==> (s.c.slot == Current(s.p) <==> !s.c.replaced || s.p.value.None?)
  {
    RunKeeps(Start(), steps);
    InvNothingLost(Run(Start(), steps));
  }

  /** The watcher sends values the parameter had, and never an older one after a newer one. */
  lemma NeverGoesBack<V>(steps: seq<Step<V>>, i: nat, j: nat)
    requires Legal(Start<V>(), steps) && DeclaredOnce(Start(), steps)
    requires i <= j < |Run(Start(), steps).w.sent|
    ensures var s := Run(Start(), steps);
      exists k, l :: 0 <= k <= l && Says(s.p.writes, s.w.sent[i], k) && Says(s.p.writes, s.w.sent[j], l)
  {
    RunKeeps(Start(), steps);
    var s := Run(Start(), steps);
    assert Says(s.p.writes, s.w.sent[i], s.w.marks[i]) && Says(s.p.writes, s.w.sent[j], s.w.marks[j]);
  }

  /** The steps of the watcher's thread, and the arrival of its replies. */
  predicate Watches<V>(step: Step<V>)
  {
    step.WatchFind? || step.WatchLoad? || step.WatchRead? || step.WatchSend? || step.WatchWake? || step.Receive?
  }

  /** How far the watcher is from rest, and how many replies are under way. */
  function ToCome<V>(s: Sys<V>): nat
  {
    2 * Unrest(s) + |s.c.wire|
  }

  lemma WatchOn<V>(s: Sys<V>) returns (step: Step<V>)
    requires Inv(s) && s.p.value.Some? && s.p.lock.Free? && !(AtRest(s) && s.c.wire == [])
    ensures Watches(step) && Enabled(s, step) && Inv(Apply(s, step))
    ensures Apply(s, step).p == s.p && ToCome(Apply(s, step)) < ToCome(s)
  {
    if s.c.wire != [] {
      step := Receive;
    } else {
      step := match s.w.pc
              case Top => WatchFind
              case Load => WatchLoad
              case Read => WatchRead
              case Send(_) => WatchSend
              case Wait => WatchWake;
    }
    ApplyKeeps(s, step);
  }

  /** From every state with the lock free the watcher comes to rest by its own steps, and with its replies
      arrived the slot holds the current value, unless it was replaced and nothing was sent since. */
  lemma {:induction false} CatchesUp<V>(s: Sys<V>) returns (steps: seq<Step<V>>)
    requires Inv(s) && s.p.value.Some? && s.p.lock.Free?
    ensures Legal(s, steps) && forall i :: 0 <= i < |steps| ==> Watches(steps[i])
    ensures var r := Run(s, steps);
      && r.p == s.p && AtRest(r) && r.c.wire == [] && r.w.sent != [] && r.w.sent[|r.w.sent| - 1] == Current(s.p)
      && (r.c.slot == Current(s.p) <==> !r.c.replaced)
    decreases ToCome(s)
  {
    if AtRest(s) && s.c.wire == [] {
      steps := [];
      InvNothingLost(s);
    } else {
      var step := WatchOn(s);
      var rest := CatchesUp(Apply(s, step));
      steps := Prepend(s, step, rest);
    }
  }

  /** A slot that is replaced is empty until the next reply comes. */
  lemma ReplacedIsEmpty<V>(s: Sys<V>)
    requires Inv(s)
    ensures Legal(s, [Replace]) && Run(s, [Replace]).c.slot == NotAvailable && Run(s, [Replace]).c.replaced
    ensures s.c.wire != [] ==> Legal(s, [Replace, Receive]) && Run(s, [Replace, Receive]).c.slot == s.c.wire[0]
  {
    var a := Apply(s, Replace);
    var one := Prepend(s, Replace, []);
    if s.c.wire != [] {
      var two := Prepend(a, Receive, []);
      two := Prepend(s, Replace, two);
    }
  }

  // ------------------------------------------------------------------ racing declarations

  lemma Prepend<V>(s: Sys<V>, step: Step<V>, rest: seq<Step<V>>) returns (steps: seq<Step<V>>)
    requires Enabled(s, step) && Legal(Apply(s, step), rest)
    ensures steps == [step] + rest && Legal(s, steps) && Run(s, steps) == Run(Apply(s, step), rest)
    ensures DeclaredOnce(s, steps) <==> !Overwrites(s, step) && DeclaredOnce(Apply(s, step), rest)
  {
    steps := [step] + rest;
    assert steps[1..] == rest;
  }

  lemma {:induction false} RunAppend<V>(s: Sys<V>, a: seq<Step<V>>, b: seq<Step<V>>)
    requires Legal(s, a) && Legal(Run(s, a), b)
    ensures Legal(s, a + b) && Run(s, a + b) == Run(Run(s, a), b)
    decreases |a|
  {
    if a == [] {
      assert a + b == b;
    } else {
      RunAppend(Apply(s, a[0]), a[1..], b);
      assert (a + b)[1..] == a[1..] + b;
    }
  }

  /** Once declared with nobody else past the check, a parameter is never declared again. */
  lemma {:induction false} SettledDeclaredOnce<V>(s: Sys<V>, steps: seq<Step<V>>)
    requires Inv(s) && s.p.value.Some? && s.p.declarers == 0 && Legal(s, steps)
    ensures DeclaredOnce(s, steps)
    decreases |steps|
  {
    if steps != [] {
      ApplyKeeps(s, steps[0]);
      SettledDeclaredOnce(Apply(s, steps[0]), steps[1..]);
    }
  }

  /** Calls past their check: each may still count the version up. */
  function Callers<V>(p: Param<V>): nat
  {
    p.remotes + p.ready
  }

  /** The version once the lock is free again. */
  function NextVersion<V>(p: Param<V>): nat
  {
    match p.lock
    case Free => p.version
    case Declaring(_) => 1
    case Setting => p.version + 1
  }

  /** The watcher has loaded a version it will compare, or waits with one. */
  predicate Holds<V>(w: Watcher<V>)
  {
    w.pc.Read? || w.pc.Send? || w.pc.Wait?
  }

  /** The watcher may sleep at a version that a constant declared anew can come to: after its
      declaration a constant is at version 1, and only the calls past their check count it up. */
  predicate Exposed<V>(s: Sys<V>)
  {
    var top := 1 + Callers(s.p);
    || NextVersion(s.p) <= top
    || (s.w.pc.Load? && 1 <= s.p.version <= top)
    || (Holds(s.w) && 1 <= s.w.version <= top)
  }

  predicate Begun<V>(s: Sys<V>)
  {
    && s.p.value.Some? && (s.p.lock.Declaring? || s.p.version > 0)
    && (s.w.pc.Wait? ==> |s.w.sent| > 0)
  }

  /** The watcher sleeps at a version the parameter will have again if it is declared anew. */
  predicate Caught<V>(s: Sys<V>)
  {
    && Begun(s) && s.w.pc.Wait? && s.p.lock.Free? && s.w.version > 0
    && (s.p.constant ==> s.w.version <= 1 + Callers(s.p))
  }

  /** How far the watcher is from rest. */
  function Unrest<V>(s: Sys<V>): nat
  {
    var stale := if s.w.version == s.p.version then 0 else 5;
    match s.w.pc
    case Wait => stale
    case Send(_) => stale + 1
    case Read => stale + 2
    case Load => 3
    case Top => 4
  }

  lemma TowardsRest<V>(s: Sys<V>) returns (step: Step<V>)
    requires Begun(s) && (s.p.constant ==> Exposed(s)) && !Caught(s)
    ensures Enabled(s, step)
    ensures var r := Apply(s, step);
      && Begun(r) && (r.p.constant ==> Exposed(r)) && r.p.declarers == s.p.declarers
      && (if r.p.lock == s.p.lock then Unrest(r) < Unrest(s) else r.p.lock.Free?)
  {
    step := match s.w.pc
            case Load => WatchLoad
            case _ =>
              match s.p.lock
              case Declaring(_) => DeclareFinish
              case Setting => SetFinish
              case Free =>
                match s.w.pc
                case Top => WatchFind
                case Read => WatchRead
                case Send(_) => WatchSend
                case _ => WatchWake;
  }

  /** The writer that holds the lock finishes, and the watcher goes to sleep. */
  lemma {:induction false} FallsAsleep<V>(s: Sys<V>) returns (steps: seq<Step<V>>)
    requires Begun(s) && (s.p.constant ==> Exposed(s))
    ensures Legal(s, steps) && Caught(Run(s, steps)) && Run(s, steps).p.declarers == s.p.declarers
    decreases if s.p.lock.Free? then 0 else 1, Unrest(s)
  {
    if Caught(s) {
      steps := [];
    } else {
      var step := TowardsRest(s);
      var rest := FallsAsleep(Apply(s, step));
      steps := Prepend(s, step, rest);
    }
  }

  /** `n` calls of `set`, the watcher sleeping all along. */
  lemma {:induction false} SetTimes<V>(s: Sys<V>, v: V, n: nat) returns (steps: seq<Step<V>>)
    requires s.p.lock.Free? && s.p.value == Some(v) && (s.p.constant ==> n <= Callers(s.p))
    ensures Legal(s, steps)
    ensures var r := Run(s, steps);
      r.p.lock.Free? && r.p.value == Some(v) && r.p.version == s.p.version + n && r.w == s.w
    decreases n, if s.p.ready > 0 then 0 else 1
  {
    steps := [];
    if n > 0 && s.p.ready > 0 {
      var a := Apply(s, SetWrite(v));
      var b := Apply(a, SetFinish);
      steps := SetTimes(b, v, n - 1);
      steps := Prepend(a, SetFinish, steps);
      steps := Prepend(s, SetWrite(v), steps);
    } else if n > 0 {
      var check := if s.p.remotes > 0 then RemoteFind else LocalCheck;
      steps := SetTimes(Apply(s, check), v, n);
      steps := Prepend(s, check, steps);
    }
  }

  /** A sleeping watcher, and one more `declare` that found the name free long ago: a value is lost. */
  lemma RedeclarationLoses<V>(s: Sys<V>, v: V) returns (steps: seq<Step<V>>)
    requires Caught(s) && s.p.declarers > 0 && s.w.sent[|s.w.sent| - 1] != Normal(v)
    ensures Legal(s, steps) && !NothingLost(Run(s, steps))
  {
    var a := Apply(s, DeclareWrite(v, false));
    var b := Apply(a, DeclareFinish);
    steps := SetTimes(b, v, s.w.version - 1);
    steps := Prepend(a, DeclareFinish, steps);
    steps := Prepend(s, DeclareWrite(v, false), steps);
  }

  lemma Loses<V>(s: Sys<V>, v: V, u: V) returns (steps: seq<Step<V>>)
    requires Begun(s) && (s.p.constant ==> Exposed(s)) && s.p.declarers > 0 && v != u
    ensures Legal(s, steps) && !NothingLost(Run(s, steps))
  {
    var calm := FallsAsleep(s);
    var r := Run(s, calm);
    var bad := RedeclarationLoses(r, if r.w.sent[|r.w.sent| - 1] == Normal(v) then u else v);
    RunAppend(s, calm, bad);
    steps := calm + bad;
  }

  /** With two of them the first brings a constant back to version 1, where the second meets the watcher. */
  lemma {:induction false} LosesToTwo<V>(s: Sys<V>, v: V, u: V) returns (steps: seq<Step<V>>)
    requires Begun(s) && s.p.declarers > 1 && v != u
    ensures Legal(s, steps) && !NothingLost(Run(s, steps))
    decreases if s.p.lock.Free? then 0 else 1
  {
    if s.p.constant ==> Exposed(s) {
      steps := Loses(s, v, u);
    } else if s.p.lock.Setting? {
      steps := LosesToTwo(Apply(s, SetFinish), v, u);
      steps := Prepend(s, SetFinish, steps);
    } else {
      var a := Apply(s, DeclareWrite(v, false));
      steps := Loses(a, v, u);
      steps := Prepend(s, DeclareWrite(v, false), steps);
    }
  }

  // ------------------------------------------------------------------ one declaration too many

  /** A constant that one more `declare` will write to. */
  predicate OneToCome<V>(s: Sys<V>)
  {
    s.p.value.Some? && s.p.constant && s.p.declarers == 1 && !Exposed(s)
  }

  /** It has written: versions beyond `top` are those from before. */
  ghost predicate AllCame<V>(s: Sys<V>, top: nat)
  {
    && s.p.value.Some? && s.p.constant && s.p.declarers == 0 && NextVersion(s.p) + Callers(s.p) <= top
    && (if s.p.lock.Declaring? then top < s.p.version else s.p.version > 0)
    && (Holds(s.w) ==> s.w.version == 0 || top < s.w.version || (!s.p.lock.Declaring? && Knows(s)))
  }

  /** At the current version the watcher has the current value. */
  ghost predicate Knows<V>(s: Sys<V>)
  {
    && s.w.version <= s.p.version
    && (s.w.version == s.p.version && s.p.lock.Free? ==>
          && (s.w.pc.Send? ==> s.w.pc.reply == Current(s.p))
          && (s.w.pc.Wait? ==> |s.w.sent| > 0 && s.w.sent[|s.w.sent| - 1] == Current(s.p)))
  }

  lemma OneToComeStep<V>(s: Sys<V>, step: Step<V>)
    requires OneToCome(s) && Enabled(s, step)
    ensures if Overwrites(s, step) then AllCame(Apply(s, step), 1 + Callers(s.p)) else OneToCome(Apply(s, step))
  {
  }

  lemma AllCameStep<V>(s: Sys<V>, step: Step<V>, top: nat)
    requires AllCame(s, top) && Enabled(s, step)
    ensures AllCame(Apply(s, step), top)
  {
  }

  lemma {:induction false} AllCameRun<V>(s: Sys<V>, steps: seq<Step<V>>, top: nat)
    requires AllCame(s, top) && Legal(s, steps)
    ensures AllCame(Run(s, steps), top)
    decreases |steps|
  {
    if steps != [] {
      AllCameStep(s, steps[0], top);
      AllCameRun(Apply(s, steps[0]), steps[1..], top);
    }
  }

  lemma {:induction false} OneToComeRun<V>(s: Sys<V>, steps: seq<Step<V>>)
    requires Inv(s) && OneToCome(s) && Legal(s, steps)
    ensures NothingLost(Run(s, steps))
    decreases |steps|
  {
    if steps == [] {
      InvNothingLost(s);
    } else {
      var r := Apply(s, steps[0]);
      OneToComeStep(s, steps[0]);
      if Overwrites(s, steps[0]) {
        AllCameRun(r, steps[1..], 1 + Callers(s.p));
      } else {
        ApplyKeeps(s, steps[0]);
        OneToComeRun(r, steps[1..]);
      }
    }
  }

  /** From the start: two `declare` calls find the name free, the watcher sends the first value and
      sleeps at version 1, and the second value is written at version 1. */
  lemma RacingDeclarationsLose<V>(v: V, u: V) returns (steps: seq<Step<V>>)
    requires v != u
    ensures Legal(Start<V>(), steps) && !NothingLost(Run(Start(), steps)) && AtRest(Run(Start(), steps))
    ensures Run(Start(), steps).w.sent == [Normal(v)] && Run(Start(), steps).p.value == Some(u)
  {
    var s0 := Start<V>();
    var s1 := Apply(s0, DeclareCheck);
    var s2 := Apply(s1, DeclareCheck);
    var s3 := Apply(s2, DeclareWrite(v, false));
    var s4 := Apply(s3, DeclareFinish);
    var s8, watched := FirstWatch(s4, v);
    var s9 := Apply(s8, DeclareWrite(u, false));
    steps := Prepend(s9, DeclareFinish, []);
    steps := Prepend(s8, DeclareWrite(u, false), steps);
    RunAppend(s4, watched, steps);
    steps := Prepend(s3, DeclareFinish, watched + steps);
    steps := Prepend(s2, DeclareWrite(v, false), steps);
    steps := Prepend(s1, DeclareCheck, steps);
    steps := Prepend(s0, DeclareCheck, steps);
  }

  /** A watcher's first turn, undisturbed. */
  lemma FirstWatch<V>(s: Sys<V>, v: V) returns (r: Sys<V>, steps: seq<Step<V>>)
    requires s.p.value == Some(v) && s.p.lock.Free? && s.w == Watcher(Top, 0, 0, [], [])
    ensures Legal(s, steps) && r == Run(s, steps)
    ensures r.p == s.p && r.w == Watcher(Wait, s.p.version, |s.p.writes|, [Normal(v)], [|s.p.writes|])
  {
    var a := Apply(s, WatchFind);
    var b := Apply(a, WatchLoad);
    var c := Apply(b, WatchRead);
    r := Apply(c, WatchSend);
    steps := Prepend(c, WatchSend, []);
    steps := Prepend(b, WatchRead, steps);
    steps := Prepend(a, WatchLoad, steps);
    steps := Prepend(s, WatchFind, steps);
  }

  /** Exactly when nothing can be lost from here on: no other `declare` is past its check, or only one
      is, the parameter is a constant, and no version at which the watcher may sleep comes again. */
  lemma NothingLostIff<V>(s: Sys<V>, v: V, u: V)
    requires Inv(s) && s.p.value.Some? && v != u
    ensures (forall steps :: Legal(s, steps) ==> NothingLost(Run(s, steps)))
       <==> s.p.declarers == 0 || (s.p.declarers == 1 && s.p.constant && !Exposed(s))
  {
    if s.p.declarers == 0 {
      forall steps | Legal(s, steps) ensures NothingLost(Run(s, steps)) {
        SettledDeclaredOnce(s, steps);
        RunKeeps(s, steps);
        InvNothingLost(Run(s, steps));
      }
    } else if OneToCome(s) {
      forall steps | Legal(s, steps) ensures NothingLost(Run(s, steps)) {
        OneToComeRun(s, steps);
      }
    } else {
      var steps := AnyLoses(s, v, u);
      assert Legal(s, steps) && !NothingLost(Run(s, steps));
    }
  }

  lemma AnyLoses<V>(s: Sys<V>, v: V, u: V) returns (steps: seq<Step<V>>)
    requires Begun(s) && s.p.declarers > 0 && !OneToCome(s) && v != u
    ensures Legal(s, steps) && !NothingLost(Run(s, steps))
  {
    if s.p.declarers > 1 { steps := LosesToTwo(s, v, u); } else { steps := Loses(s, v, u); }
  }

  // ------------------------------------------------------------------ constants

  predicate Frozen<V>(p: Param<V>)
  {
    p.value.Some? && p.constant && p.lock.Free? && p.declarers == 0 && p.remotes == 0 && p.ready == 0
  }

  lemma {:induction false} FrozenStays<V>(s: Sys<V>, steps: seq<Step<V>>)
    requires Frozen(s.p) && Legal(s, steps)
    ensures Run(s, steps).p == s.p
    decreases |steps|
  {
    if steps != [] {
      FrozenStays(Apply(s, steps[0]), steps[1..]);
    }
  }

  /** Exactly when a constant stays what it is: nobody is past a check made before it was one. A remote
      `set` asks whether the name is constant before it asks whether it is declared at all. */
  lemma ConstantIffNobodyPastChecks<V>(s: Sys<V>, v: V)
    requires s.p.value.Some? && s.p.constant && s.p.lock.Free? && s.p.value != Some(v)
    ensures (forall steps :: Legal(s, steps) ==> Run(s, steps).p.value == s.p.value)
       <==> s.p.declarers == 0 && s.p.remotes == 0 && s.p.ready == 0
  {
    if Frozen(s.p) {
      forall steps | Legal(s, steps) ensures Run(s, steps).p.value == s.p.value {
        FrozenStays(s, steps);
      }
    } else {
      var steps := Thaws(s, v);
      assert Legal(s, steps) && Run(s, steps).p.value != s.p.value;
    }
  }

  lemma Thaws<V>(s: Sys<V>, v: V) returns (steps: seq<Step<V>>)
    requires s.p.value.Some? && s.p.lock.Free? && (s.p.declarers > 0 || s.p.remotes > 0 || s.p.ready > 0)
    ensures Legal(s, steps) && Run(s, steps).p.value == Some(v)
  {
    if s.p.declarers > 0 {
      steps := Prepend(s, DeclareWrite(v, true), []);
    } else if s.p.ready > 0 {
      steps := Prepend(s, SetWrite(v), []);
    } else {
      steps := Prepend(Apply(s, RemoteFind), SetWrite(v), []);
      steps := Prepend(s, RemoteFind, steps);
    }
  }

  /** The race: a remote `set` overtaken by the declaration changes the constant. */
  lemma RemoteSetChangesConstant<V>(v: V, u: V) returns (steps: seq<Step<V>>)
    requires v != u
    ensures Legal(Start<V>(), steps) && DeclaredOnce(Start(), steps)
    ensures var p := Run(Start(), steps).p; p.constant && p.writes == [v, u] && p.lock.Free?
  {
    var s0 := Start<V>();
    var s1 := Apply(s0, RemoteConst);
    var s2 := Apply(s1, DeclareCheck);
    var s3 := Apply(s2, DeclareWrite(v, true));
    var s4 := Apply(s3, DeclareFinish);
    steps := RemoteSets(s4, v, u);
    steps := Prepend(s3, DeclareFinish, steps);
    steps := Prepend(s2, DeclareWrite(v, true), steps);
    steps := Prepend(s1, DeclareCheck, steps);
    steps := Prepend(s0, RemoteConst, steps);
  }

  /** A remote `set` goes on from where it found the name not constant. */
  lemma RemoteSets<V>(s: Sys<V>, v: V, u: V) returns (steps: seq<Step<V>>)
    requires s.p == Param(Some(v), 1, true, Free, 0, 1, 0, [v])
    ensures Legal(s, steps) && DeclaredOnce(s, steps)
    ensures var p := Run(s, steps).p; p.constant && p.writes == [v, u] && p.lock.Free?
  {
    var a := Apply(s, RemoteFind);
    var b := Apply(a, SetWrite(u));
    steps := Prepend(b, SetFinish, []);
    steps := Prepend(a, SetWrite(u), steps);
    steps := Prepend(s, RemoteFind, steps);
  }
}
