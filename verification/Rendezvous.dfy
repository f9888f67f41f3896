/**
 How nodes meet. A node keeps a connection client for every peer the registrar told it about, and
 sends each of them all it asks for: its subscriptions and its served services. Peers come, go and
 come back; requests are added at any time.
 */
module Rendezvous {
  import opened Wrappers

  datatype Request = Request(object: string, ip: string, port: int, url: string, node: string)

  /** A call issued to a peer. */
  datatype Rpc = Topic(request: Request) | Service(request: Request)

  /** The client of one peer: its address and the calls issued to it, in order. */
  datatype Peer = Peer(address: string, issued: seq<Rpc>)

  datatype Event =
    | Join(peer: string, address: string)
    | Leave(peer: string)
    | Ask(rpc: Rpc)

  // ------------------------------------------------------------------ what a history says

  /** The requests of one kind, in the order they were made. */
  function Asked(history: seq<Event>, topics: bool): seq<Request>
  {
    if history == [] then
      []
    else
      var last := history[|history| - 1];
      var before := Asked(history[..|history| - 1], topics);
      if last.Ask? && last.rpc.Topic? == topics then before + [last.rpc.request] else before
  }

  /** The address a peer last joined with, if it has not left since. */
  function Present(history: seq<Event>, peer: string): Option<string>
  {
    if history == [] then
      None
    else
      var last := history[|history| - 1];
      if last.Join? && last.peer == peer then Some(last.address)
      else if last.Leave? && last.peer == peer then None
      else Present(history[..|history| - 1], peer)
  }

  /** A peer is there at an address exactly when it joined at it and has neither joined again nor left since. */
  lemma {:induction false} PresentIff(history: seq<Event>, peer: string, address: string)
    ensures Present(history, peer) == Some(address) <==> exists i :: JoinedLast(history, peer, address, i)
  {
    if history != [] {
      var n := |history| - 1;
      var before, last := history[..n], history[n];
      PresentIff(before, peer, address);
      if Moves(last, peer) {
        if last == Join(peer, address) { assert JoinedLast(history, peer, address, n); }
      } else {
        forall i ensures JoinedLast(history, peer, address, i) <==> JoinedLast(before, peer, address, i) {
        }
      }
    }
  }

  predicate Moves(e: Event, peer: string)
  {
    (e.Join? || e.Leave?) && e.peer == peer
  }

  predicate JoinedLast(history: seq<Event>, peer: string, address: string, i: int)
  {
    && 0 <= i < |history| && history[i] == Join(peer, address)
    && forall j :: i < j < |history| ==> !Moves(history[j], peer)
  }

  /** The requests of one kind are those at ever later places of the history, and no other place has one. */
  lemma {:induction false} AskedIs(history: seq<Event>, topics: bool) returns (at: seq<nat>)
    ensures |at| == |Asked(history, topics)| && forall k, l :: 0 <= k < l < |at| ==> at[k] < at[l]
    ensures forall k :: 0 <= k < |at| ==>
      && at[k] < |history| && history[at[k]].Ask?
      && history[at[k]].rpc.Topic? == topics && history[at[k]].rpc.request == Asked(history, topics)[k]
    ensures forall i: nat :: i < |history| && history[i].Ask? && history[i].rpc.Topic? == topics ==> i in at
  {
    at := [];
    if history != [] {
      var n := |history| - 1;
      at := AskedIs(history[..n], topics);
      assert forall i :: 0 <= i < n ==> history[..n][i] == history[i];
      if history[n].Ask? && history[n].rpc.Topic? == topics {
        at := at + [n];
        assert at[|at| - 1] == n;
      }
    }
  }

  /** The requests of one kind among calls. */
  function OfKind(issued: seq<Rpc>, topics: bool): seq<Request>
  {
    if issued == [] then
      []
    else
      var last := issued[|issued| - 1];
      var before := OfKind(issued[..|issued| - 1], topics);
      if last.Topic? == topics then before + [last.request] else before
  }

  lemma {:induction false} OfKindSnoc(issued: seq<Rpc>, rpc: Rpc, topics: bool)
    ensures OfKind(issued + [rpc], topics) ==
      if rpc.Topic? == topics then OfKind(issued, topics) + [rpc.request] else OfKind(issued, topics)
  {
    var all := issued + [rpc];
    assert all[..|all| - 1] == issued;
  }

  /** A peer has been sent every request of the history, once and in order. */
  ghost predicate Served(history: seq<Event>, issued: seq<Rpc>)
  {
    OfKind(issued, true) == Asked(history, true) && OfKind(issued, false) == Asked(history, false)
  }

  /** The club after a history: the recorded requests, the peers present, and what each was sent. */
  ghost predicate Reflects(
    history: seq<Event>, clients: map<string, Peer>, topics: seq<Request>, services: seq<Request>)
  {
    && topics == Asked(history, true) && services == Asked(history, false)
    && (forall p :: p in clients <==> Present(history, p).Some?)
    && (forall p :: p in clients ==>
          Present(history, p) == Some(clients[p].address) && Served(history, clients[p].issued))
  }

  lemma AskSnoc(history: seq<Event>, e: Event)
    ensures Asked(history + [e], true) ==
      if e.Ask? && e.rpc.Topic? then Asked(history, true) + [e.rpc.request] else Asked(history, true)
    ensures Asked(history + [e], false) ==
      if e.Ask? && e.rpc.Service? then Asked(history, false) + [e.rpc.request] else Asked(history, false)
  {
    var all := history + [e];
    assert all[..|all| - 1] == history;
  }

  lemma PresentSnoc(history: seq<Event>, e: Event, p: string)
    ensures Present(history + [e], p) ==
      if e.Join? && e.peer == p then Some(e.address) else if e.Leave? && e.peer == p then None else Present(history, p)
  {
    var all := history + [e];
    assert all[..|all| - 1] == history;
  }

  lemma ServedSnoc(history: seq<Event>, issued: seq<Rpc>, rpc: Rpc)
    requires Served(history, issued)
    ensures Served(history + [Ask(rpc)], issued + [rpc])
  {
    AskSnoc(history, Ask(rpc));
    OfKindSnoc(issued, rpc, true);
    OfKindSnoc(issued, rpc, false);
  }

  lemma JoinKeeps(
    history: seq<Event>, clients: map<string, Peer>, topics: seq<Request>, services: seq<Request>,
    peer: string, joined: Peer)
    requires Reflects(history, clients, topics, services)
    requires OfKind(joined.issued, true) == topics && OfKind(joined.issued, false) == services
    ensures Reflects(history + [Join(peer, joined.address)], clients[peer := joined], topics, services)
  {
    var e := Join(peer, joined.address);
    AskSnoc(history, e);
    forall p ensures Present(history + [e], p) == if p == peer then Some(joined.address) else Present(history, p) {
      PresentSnoc(history, e, p);
    }
  }

  lemma LeaveKeeps(
    history: seq<Event>, clients: map<string, Peer>, topics: seq<Request>, services: seq<Request>, peer: string)
    requires Reflects(history, clients, topics, services)
    ensures Reflects(history + [Leave(peer)], clients - {peer}, topics, services)
  {
    AskSnoc(history, Leave(peer));
    forall p ensures Present(history + [Leave(peer)], p) == if p == peer then None else Present(history, p) {
      PresentSnoc(history, Leave(peer), p);
    }
  }

  /** All peers of `clients` were sent one more call. */
  ghost predicate SentAll(clients: map<string, Peer>, after: map<string, Peer>, rpc: Rpc)
  {
    && after.Keys == clients.Keys
    && forall p :: p in clients ==> after[p] == clients[p].(issued := clients[p].issued + [rpc])
  }

  lemma AskKeeps(
    history: seq<Event>, clients: map<string, Peer>, after: map<string, Peer>,
    topics: seq<Request>, services: seq<Request>, rpc: Rpc)
    requires Reflects(history, clients, topics, services) && SentAll(clients, after, rpc)
    ensures Reflects(history + [Ask(rpc)], after,
                     if rpc.Topic? then topics + [rpc.request] else topics,
                     if rpc.Service? then services + [rpc.request] else services)
  {
    AskSnoc(history, Ask(rpc));
    forall p ensures Present(history + [Ask(rpc)], p) == Present(history, p) {
      PresentSnoc(history, Ask(rpc), p);
    }
    forall p | p in after ensures p in clients && Served(history + [Ask(rpc)], after[p].issued) {
      ServedSnoc(history, clients[p].issued, rpc);
    }
  }

  // ------------------------------------------------------------------ the club

  class NodeConnectionClientClub {
    var clients: map<string, Peer>
    var topicRequests: seq<Request>
    var serviceRequests: seq<Request>
    const nodeName: string
    /** Everything that happened, for the specification. */
    ghost var history: seq<Event>

    ghost predicate Valid()
      reads this
    {
      Reflects(history, clients, topicRequests, serviceRequests)
    }

    constructor (name: string)
      ensures Valid() && history == [] && nodeName == name
    {
      clients, topicRequests, serviceRequests, history := map[], [], [], [];
      nodeName := name;
    }

    /** A peer joined, perhaps again: it is sent all requests made so far. */
    method AddClient(peer: string, address: string)
      requires Valid()
      modifies this
      ensures Valid() && history == old(history) + [Join(peer, address)]
      ensures topicRequests == old(topicRequests) && serviceRequests == old(serviceRequests)
      ensures peer in clients && clients == old(clients)[peer := clients[peer]] && clients[peer].address == address
    {
      var issued := IssueAll(topicRequests, serviceRequests);
      JoinKeeps(history, clients, topicRequests, serviceRequests, peer, Peer(address, issued));
      clients := clients[peer := Peer(address, issued)];
      history := history + [Join(peer, address)];
    }

    method DeleteClient(peer: string)
      requires Valid()
      modifies this
      ensures Valid() && history == old(history) + [Leave(peer)] && clients == old(clients) - {peer}
    {
      LeaveKeeps(history, clients, topicRequests, serviceRequests, peer);
      clients := clients - {peer};
      history := history + [Leave(peer)];
    }

    /** A subscription: recorded, and sent to every peer there is. */
    method PullSubscribeRequest(topic: string, ip: string, port: int, url: string)
      requires Valid()
      modifies this
      ensures Valid() && history == old(history) + [Ask(Topic(Request(topic, ip, port, url, nodeName)))]
      ensures SentAll(old(clients), clients, Topic(Request(topic, ip, port, url, nodeName)))
    {
      var request := Request(topic, ip, port, url, nodeName);
      topicRequests := topicRequests + [request];
      var after := IssueTo(clients, Topic(request));
      AskKeeps(history, clients, after, old(topicRequests), serviceRequests, Topic(request));
      clients := after;
      history := history + [Ask(Topic(request))];
    }

    /** A served service, likewise. Its request carries no type. */
    method PullServingServiceRequest(service: string, ip: string, port: int)
      requires Valid()
      modifies this
      ensures Valid() && history == old(history) + [Ask(Service(Request(service, ip, port, "", nodeName)))]
      ensures SentAll(old(clients), clients, Service(Request(service, ip, port, "", nodeName)))
    {
      var request := Request(service, ip, port, "", nodeName);
      serviceRequests := serviceRequests + [request];
      var after := IssueTo(clients, Service(request));
      AskKeeps(history, clients, after, topicRequests, old(serviceRequests), Service(request));
      clients := after;
      history := history + [Ask(Service(request))];
    }
  }

  /** The loops of `add_client`: the topics first, the services after them. */
  method IssueAll(topics: seq<Request>, services: seq<Request>) returns (issued: seq<Rpc>)
    ensures OfKind(issued, true) == topics && OfKind(issued, false) == services
    ensures |issued| == |topics| + |services|
    ensures forall i :: 0 <= i < |topics| ==> issued[i] == Topic(topics[i])
    ensures forall i :: 0 <= i < |services| ==> issued[|topics| + i] == Service(services[i])
  {
    issued := IssueTopics(topics);
    issued := IssueServices(issued, topics, services);
  }

  method IssueServices(before: seq<Rpc>, topics: seq<Request>, services: seq<Request>) returns (issued: seq<Rpc>)
    requires OfKind(before, true) == topics && OfKind(before, false) == []
    ensures OfKind(issued, true) == topics && OfKind(issued, false) == services
    ensures before <= issued && |issued| == |before| + |services|
    ensures forall i :: 0 <= i < |services| ==> issued[|before| + i] == Service(services[i])
  {
    issued := before;
    for i := 0 to |services|
      invariant |issued| == |before| + i && before <= issued
      invariant OfKind(issued, true) == topics && OfKind(issued, false) == services[..i]
      invariant forall k :: 0 <= k < i ==> issued[|before| + k] == Service(services[k])
    {
      OfKindSnoc(issued, Service(services[i]), true);
      OfKindSnoc(issued, Service(services[i]), false);
      issued := issued + [Service(services[i])];
      assert services[..i] + [services[i]] == services[..i + 1];
    }
    assert services[..|services|] == services;
  }

  method IssueTopics(topics: seq<Request>) returns (issued: seq<Rpc>)
    ensures OfKind(issued, true) == topics && OfKind(issued, false) == [] && |issued| == |topics|
    ensures forall i :: 0 <= i < |topics| ==> issued[i] == Topic(topics[i])
  {
    issued := [];
    for i := 0 to |topics|
      invariant |issued| == i && OfKind(issued, true) == topics[..i] && OfKind(issued, false) == []
      invariant forall k :: 0 <= k < i ==> issued[k] == Topic(topics[k])
    {
      OfKindSnoc(issued, Topic(topics[i]), true);
      OfKindSnoc(issued, Topic(topics[i]), false);
      issued := issued + [Topic(topics[i])];
      assert topics[..i] + [topics[i]] == topics[..i + 1];
    }
    assert topics[..|topics|] == topics;
  }

  /** The loop over all peers, in whatever order the table yields them. */
  method IssueTo(clients: map<string, Peer>, rpc: Rpc) returns (after: map<string, Peer>)
    ensures SentAll(clients, after, rpc)
  {
    after := clients;
    var todo := clients.Keys;
    while todo != {}
      invariant todo <= clients.Keys == after.Keys
      invariant forall p :: p in todo ==> after[p] == clients[p]
      invariant forall p :: p in clients && p !in todo ==> after[p] == clients[p].(issued := clients[p].issued + [rpc])
      decreases |todo|
    {
      var p :| p in todo;
      after := after[p := after[p].(issued := after[p].issued + [rpc])];
      todo := todo - {p};
    }
  }

  // ------------------------------------------------------------------ every run

  /** However often a peer left and came back, its present client was sent each request exactly as often
      as it was made. */
  lemma EachPeerSentEachRequestOnce(
    history: seq<Event>, clients: map<string, Peer>, topics: seq<Request>, services: seq<Request>, p: string, rpc: Rpc)
    requires Reflects(history, clients, topics, services) && p in clients
    ensures multiset(clients[p].issued)[rpc] == multiset(history)[Ask(rpc)]
  {
    CountIssued(clients[p].issued, rpc);
    CountAsked(history, rpc);
    assert Served(history, clients[p].issued);
  }

  lemma CountSnoc<T>(s: seq<T>, x: T)
    requires s != []
    ensures var last := |s| - 1;
      multiset(s)[x] == multiset(s[..last])[x] + if s[last] == x then 1 else 0
  {
    assert s == s[..|s| - 1] + [s[|s| - 1]];
  }

  lemma {:induction false} CountIssued(issued: seq<Rpc>, rpc: Rpc)
    ensures multiset(issued)[rpc] == multiset(OfKind(issued, rpc.Topic?))[rpc.request]
  {
    if issued != [] {
      var last := |issued| - 1;
      CountIssued(issued[..last], rpc);
      CountSnoc(issued, rpc);
      var e, before := issued[last], OfKind(issued[..last], rpc.Topic?);
      if e.Topic? == rpc.Topic? {
        CountSnoc(before + [e.request], rpc.request);
        assert (before + [e.request])[..|before|] == before;
      }
    }
  }

  lemma {:induction false} CountAsked(history: seq<Event>, rpc: Rpc)
    ensures multiset(history)[Ask(rpc)] == multiset(Asked(history, rpc.Topic?))[rpc.request]
  {
    if history != [] {
      var last := |history| - 1;
      CountAsked(history[..last], rpc);
      CountSnoc(history, Ask(rpc));
      var e, before := history[last], Asked(history[..last], rpc.Topic?);
      if e.Ask? && e.rpc.Topic? == rpc.Topic? {
        CountSnoc(before + [e.rpc.request], rpc.request);
        assert (before + [e.rpc.request])[..|before|] == before;
      }
    }
  }
}
