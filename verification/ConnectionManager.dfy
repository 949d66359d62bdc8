/** The connection registry as the runtime manager keeps it: fields updated in place under the
    manager's lock, one method per locked region. */
module ConnectionManager {
  import opened Wrappers
  import opened PeerLink
  import opened ConnectionRegistry
  import Text

  class Manager {
    var peers: map<string, Peer>
    var order: seq<string>
    var links: Links
    var readyPeerSkis: set<string>
    var readyListing: seq<string>
    var activeDirections: seq<string>
    var status: RuntimeStatus
    var error: string
    var localSki: string
    var currentPeerSki: string
    ghost var trace: seq<Event>

    ghost function View(): State
      reads this`peers, this`order, this`links, this`readyPeerSkis, this`readyListing, this`activeDirections
      reads this`status, this`error, this`localSki, this`currentPeerSki
    {
      State(peers, order, links, readyPeerSkis, readyListing, activeDirections, status, error, localSki, currentPeerSki)
    }

    /** The fields hold what the events so far led to. */
    ghost predicate Valid()
      reads this
    {
      View() == Run(trace)
    }

    /** The registry invariant, as long as every event named a registered endpoint. */
    ghost predicate Sound()
      reads this
    {
      Registered(trace) ==> Consistent(View())
    }

    constructor ()
      ensures Valid() && trace == []
    {
      peers, order, links := map[], [], map[];
      readyPeerSkis, readyListing, activeDirections := {}, [], [];
      status, error, localSki, currentPeerSki := NotStarted, "", "", "";
      trace := [];
    }

    ghost method Log(e: Event)
      requires View() == Step(Run(trace), e)
      modifies this`trace
      ensures Valid() && trace == old(trace) + [e]
      ensures Sound()
    {
      hide Step, Run, Consistent;
      RunExtends(trace, e);
      trace := trace + [e];
      if Registered(trace) {
        RunIsConsistent(trace);
      }
    }

    static method LiveDirectionsOf(links: Links) returns (active: set<string>)
      ensures active == LiveDirections(links)
    {
      active := {};
      var endpoints := links.Keys;
      while endpoints != {}
        invariant endpoints <= links.Keys
        invariant forall d :: d in active ==> d in LiveDirections(links)
        invariant forall endpoint, d | endpoint in links && endpoint !in endpoints && d in links[endpoint]
                                       && IsLive(links[endpoint][d].status) :: d in active
        decreases endpoints
      {
        var endpoint :| endpoint in endpoints;
        endpoints := endpoints - {endpoint};
        active := active + set d | d in links[endpoint] && IsLive(links[endpoint][d].status);
      }
    }

    method SetConnectionState(endpoint: string, direction: string, u: LinkUpdate)
      modifies this`links, this`activeDirections
      ensures View() == Update(old(View()), endpoint, direction, u)
      ensures OthersSame(links, old(links), endpoint, direction)
      ensures endpoint != "" && direction != "" ==>
                LinkAt(links, endpoint, direction) == Some(Merged(LinkAt(old(links), endpoint, direction), u))
    {
      hide Text.SortedSet, LiveDirections;
      if endpoint == "" || direction == "" {
        return;
      }
      var endpointState := if endpoint in links then links[endpoint] else map[];
      var link := if direction in endpointState then endpointState[direction] else Link(u.status, "", None);
      link := link.(status := u.status);
      if u.peerSki.Some? {
        link := link.(peerSki := u.peerSki.value);
      }
      if u.error.DropError? {
        link := link.(error := None);
      } else if u.error.SetError? {
        link := link.(error := Some(u.error.error));
      }
      links := links[endpoint := endpointState[direction := link]];
      var active := LiveDirectionsOf(links);
      activeDirections := Text.SortedSet(active);
    }

    method RecomputeReadyPeerSkis()
      modifies this`readyPeerSkis, this`readyListing, this`currentPeerSki
      ensures View() == Recompute(old(View()))
      ensures readyPeerSkis == ReadySkis(peers, links)
    {
      hide Text.SortedSet, NormalizeSki;
      var ready: set<string> := {};
      var endpoints := links.Keys;
      while endpoints != {}
        invariant endpoints <= links.Keys
        invariant forall ski :: ski in ready ==> ski in ReadySkis(peers, links)
        invariant forall endpoint, d, ski | endpoint in links && endpoint !in endpoints && endpoint in peers
                                            && d in links[endpoint] && ReadyAs(links[endpoint][d], ski) :: ski in ready
        decreases endpoints
      {
        var endpoint :| endpoint in endpoints;
        endpoints := endpoints - {endpoint};
        if endpoint !in peers {
          continue;
        }
        var states := links[endpoint];
        ready := ready + set d | d in states && states[d].status.Ready? &&
          NormalizeSki(states[d].peerSki) != "" :: NormalizeSki(states[d].peerSki);
      }
      assert ready == ReadySkis(peers, links);
      readyPeerSkis := ready;
      readyListing := Text.SortedSet(ready);
      if currentPeerSki !in ready {
        currentPeerSki := if readyListing != [] then readyListing[0] else "";
      }
    }

    /** Registers the endpoint and either reuses the running session or marks its requested
        directions as starting; a restart is then due with the returned directions. */
    method StartOrUpdate(endpoint: string, peer: Peer, choice: string, threadAlive: bool, materialSki: string)
      returns (restart: Option<seq<string>>)
      requires Valid() && endpoint != ""
      modifies this
      ensures Valid() && Sound() && trace == old(trace) + [Start(endpoint, peer, choice, threadAlive, materialSki)]
      ensures
        var requested := RequestedDirections(peer, choice);
        restart == if CanReuse(old(View()), endpoint, peer, requested, threadAlive, materialSki) then None
                   else Some(RestartDirections(View(), requested))
      ensures restart.None? ==>
                && threadAlive && old(status) != RuntimeFailed && old(status) != RuntimeClosed
                && (endpoint in old(peers) ==>
                      old(peers)[endpoint].host == peer.host && old(peers)[endpoint].port == peer.port &&
                      NormalizeSki(old(peers)[endpoint].certificateSki) == NormalizeSki(peer.certificateSki))
                && forall d :: d in RequestedDirections(peer, choice) ==>
                     LinkAt(old(links), endpoint, d).Some? && IsLive(LinkAt(old(links), endpoint, d).value.status)
      ensures peers == old(peers)[endpoint := peer]
      ensures restart.Some? ==>
                && (forall d :: d in RequestedDirections(peer, choice) ==> d in restart.value)
                && (forall d :: d in activeDirections ==> d in restart.value)
                && (forall d :: d in restart.value ==> d in RequestedDirections(peer, choice) || d in activeDirections)
    {
      hide View, AfterStart, Step, Run, CanReuse, RestartDirections, RequestedDirections, LinkAt, IsLive;
      ReuseMeans(endpoint, peer, choice, threadAlive, materialSki);
      ghost var e := Start(endpoint, peer, choice, threadAlive, materialSki);
      StepsSpelledOut(View());
      restart := StartLinks(endpoint, peer, choice, threadAlive, materialSki);
      RestartMeans(RequestedDirections(peer, choice));
      Log(e);
    }

    lemma ReuseMeans(endpoint: string, peer: Peer, choice: string, threadAlive: bool, materialSki: string)
      ensures CanReuse(View(), endpoint, peer, RequestedDirections(peer, choice), threadAlive, materialSki) ==>
                && threadAlive && status != RuntimeFailed && status != RuntimeClosed
                && (endpoint in peers ==>
                      peers[endpoint].host == peer.host && peers[endpoint].port == peer.port &&
                      NormalizeSki(peers[endpoint].certificateSki) == NormalizeSki(peer.certificateSki))
                && forall d :: d in RequestedDirections(peer, choice) ==>
                     LinkAt(links, endpoint, d).Some? && IsLive(LinkAt(links, endpoint, d).value.status)
    {
      hide CanReuse, RequestedDirections, NormalizeSki;
      var e := Start(endpoint, peer, choice, threadAlive, materialSki);
      if Reuses(View(), e) { ReuseNeeds(View(), e); }
    }

    lemma RestartMeans(requested: seq<string>)
      ensures forall d :: d in RestartDirections(View(), requested) <==> d in requested || d in activeDirections
    {
    }

    /** The locked region of a start. */
    method StartLinks(endpoint: string, peer: Peer, choice: string, threadAlive: bool, materialSki: string)
        returns (restart: Option<seq<string>>)
      requires endpoint != ""
      modifies this`peers, this`order, this`links, this`activeDirections, this`status, this`error
      ensures View() == AfterStart(old(View()), Start(endpoint, peer, choice, threadAlive, materialSki))
      ensures
        var requested := RequestedDirections(peer, choice);
        restart == if CanReuse(old(View()), endpoint, peer, requested, threadAlive, materialSki) then None
                   else Some(RestartDirections(View(), requested))
      ensures peers == old(peers)[endpoint := peer]
    {
      hide Text.SortedSet, CanReuse, RepairAll, StartAll;
      var requested := RequestedDirections(peer, choice);
      var canReuse := CanReuse(State(peers, order, links, readyPeerSkis, readyListing, activeDirections, status, error,
                                     localSki, currentPeerSki),
                               endpoint, peer, requested, threadAlive, materialSki);
      if endpoint !in peers {
        order := order + [endpoint];
      }
      peers := peers[endpoint := peer];
      LinkRequested(endpoint, requested, peer, canReuse);
      if canReuse {
        restart := None;
      } else {
        status, error := RuntimeStarting, "";
        restart := Some(Text.SortedSet((set d | d in requested) + (set d | d in activeDirections)));
      }
    }

    method LinkRequested(endpoint: string, requested: seq<string>, peer: Peer, canReuse: bool)
      modifies this`links, this`activeDirections
      ensures View() == if canReuse then RepairAll(old(View()), endpoint, requested, peer)
                        else StartAll(old(View()), endpoint, requested, peer)
    {
      hide Text.SortedSet, NormalizeSki, Update, Repair;
      for n := 0 to |requested|
        invariant View() == if canReuse then RepairAll(old(View()), endpoint, requested[..n], peer)
                            else StartAll(old(View()), endpoint, requested[..n], peer)
      {
        assert requested[..n + 1][..n] == requested[..n];
        if canReuse {
          RepairReusedReadyState(endpoint, requested[n], peer);
        } else {
          SetConnectionState(endpoint, requested[n], LinkUpdate(Starting, Some(peer.certificateSki), KeepError));
        }
      }
      assert requested[..|requested|] == requested;
    }

    method RepairReusedReadyState(endpoint: string, direction: string, peer: Peer)
      modifies this`links, this`activeDirections
      ensures View() == Repair(old(View()), endpoint, direction, peer)
    {
      hide Text.SortedSet, NormalizeSki, Update;
      if endpoint in links && direction in links[endpoint] && links[endpoint][direction].status == Ready {
        return;
      }
      var peerSki := NormalizeSki(peer.certificateSki);
      if peerSki != "" && exists row :: row in readyListing && NormalizeSki(row) == peerSki {
        SetConnectionState(endpoint, direction, LinkUpdate(Ready, Some(peerSki), DropError));
      }
    }

    method MarkListening(ski: string)
      requires Valid()
      modifies this
      ensures Valid() && Sound() && trace == old(trace) + [NowListening(ski)]
      ensures status == RuntimeListening && localSki == ski
      ensures peers == old(peers) && readyPeerSkis == old(readyPeerSkis)
      ensures forall endpoint :: endpoint in order && endpoint != "" ==> IsListening(links, endpoint)
      ensures Registered(trace) ==>
                forall endpoint :: endpoint in peers && endpoint != "" ==> IsListening(links, endpoint)
      ensures forall other, d :: other !in order || d != INBOUND ==>
              LinkAt(links, other, d) == LinkAt(old(links), other, d)
    {
      hide Text.SortedSet, NormalizeSki, Run, Update;
      status, error, localSki := RuntimeListening, "", ski;
      ghost var before := View();
      for n := 0 to |order|
        invariant trace == old(trace) && order == old(order) && n <= |order|
        invariant View() == ListenOn(before, order[..n])
      {
        assert order[..n + 1][..n] == order[..n];
        SetConnectionState(order[n], INBOUND, LinkUpdate(Listening, None, KeepError));
      }
      assert order[..|order|] == order;
      ListenTouchesInbound(before, order);
      Log(NowListening(ski));
    }

    method AddReady(ski: string)
      modifies this`readyPeerSkis, this`readyListing, this`currentPeerSki
      ensures View() == MarkReadySki(old(View()), ski)
      ensures ski == "" ==> readyPeerSkis == old(readyPeerSkis)
      ensures ski != "" ==> readyPeerSkis == old(readyPeerSkis) + {ski} && currentPeerSki == ski
    {
      hide Text.SortedSet;
      if ski != "" {
        readyPeerSkis := readyPeerSkis + {ski};
        currentPeerSki := ski;
      }
      readyListing := Text.SortedSet(readyPeerSkis);
    }

    method MarkReady(ski: string, payloadEndpoint: string, direction: string)
      requires Valid()
      modifies this
      ensures Valid() && Sound() && trace == old(trace) + [PeerReady(ski, payloadEndpoint, direction)]
      ensures status == ShipReady && peers == old(peers) && old(readyPeerSkis) <= readyPeerSkis
      ensures NormalizeSki(ski) != "" ==> NormalizeSki(ski) in readyPeerSkis && currentPeerSki == NormalizeSki(ski)
      ensures payloadEndpoint != "" ==>
                LinkAt(links, payloadEndpoint, if direction != "" then direction else INBOUND) ==
                  Some(Link(Ready, NormalizeSki(ski), None))
    {
      hide Text.SortedSet, NormalizeSki, Run, Update, MarkReadySki;
      var peerSki := NormalizeSki(ski);
      var endpoint := payloadEndpoint;
      if endpoint == "" && peerSki != "" {
        endpoint := FindEndpoint(peerSki);
      }
      AddReady(peerSki);
      status, error := ShipReady, "";
      if endpoint != "" {
        var ready := if direction != "" then direction else INBOUND;
        SetConnectionState(endpoint, ready, LinkUpdate(Ready, Some(peerSki), DropError));
      }
      Log(PeerReady(ski, payloadEndpoint, direction));
    }

    method FindEndpoint(peerSki: string) returns (endpoint: string)
      ensures endpoint == EndpointFor(order, peers, peerSki)
    {
      hide NormalizeSki;
      for n := 0 to |order|
        invariant EndpointFor(order, peers, peerSki) == EndpointFor(order[n..], peers, peerSki)
      {
        if order[n] in peers && NormalizeSki(peers[order[n]].certificateSki) == peerSki {
          return order[n];
        }
        assert order[n..][1..] == order[n + 1..];
      }
      endpoint := "";
    }

    method MarkOutboundConnecting(endpoint: string, peer: Peer)
      requires Valid()
      modifies this
      ensures Valid() && Sound() && trace == old(trace) + [OutboundConnecting(endpoint, peer)]
      ensures status == RuntimeConnecting && peers == old(peers) && readyPeerSkis == old(readyPeerSkis)
      ensures OthersSame(links, old(links), endpoint, OUTBOUND)
      ensures endpoint != "" ==>
                LinkAt(links, endpoint, OUTBOUND).Some? && LinkAt(links, endpoint, OUTBOUND).value.status.Connecting? &&
                LinkAt(links, endpoint, OUTBOUND).value.peerSki == peer.certificateSki
    {
      hide Run, Update, ListenOn, AfterStart, AfterPeerReady, AfterClosed, AfterDisconnect, MarkReadySki, NormalizeSki;
      status, error := RuntimeConnecting, "";
      SetConnectionState(endpoint, OUTBOUND, LinkUpdate(Connecting, Some(peer.certificateSki), KeepError));
      Log(OutboundConnecting(endpoint, peer));
    }

    method MarkOutboundReady(endpoint: string, peer: Peer)
      requires Valid()
      modifies this
      ensures Valid() && Sound() && trace == old(trace) + [OutboundReady(endpoint, peer)]
      ensures status == ShipReady && peers == old(peers) && OthersSame(links, old(links), endpoint, OUTBOUND)
      ensures
        var ski := NormalizeSki(peer.certificateSki);
        readyPeerSkis == old(readyPeerSkis) + if ski == "" then {} else {ski}
      ensures endpoint != "" ==>
              LinkAt(links, endpoint, OUTBOUND) == Some(Link(Ready, NormalizeSki(peer.certificateSki), None))
    {
      hide Run, Update, NormalizeSki, MarkReadySki;
      var peerSki := NormalizeSki(peer.certificateSki);
      AddReady(peerSki);
      status, error := ShipReady, "";
      SetConnectionState(endpoint, OUTBOUND, LinkUpdate(Ready, Some(peerSki), DropError));
      Log(OutboundReady(endpoint, peer));
    }

    method MarkOutboundFailed(endpoint: string, peer: Peer, reason: string)
      requires Valid()
      modifies this
      ensures Valid() && Sound() && trace == old(trace) + [OutboundFailed(endpoint, peer, reason)]
      ensures status == RuntimeFailed && peers == old(peers) && readyPeerSkis == old(readyPeerSkis)
      ensures OthersSame(links, old(links), endpoint, OUTBOUND)
      ensures endpoint != "" ==>
              LinkAt(links, endpoint, OUTBOUND) == Some(Link(Failed, peer.certificateSki, Some(reason)))
    {
      hide Run, Update, ListenOn, AfterStart, AfterPeerReady, AfterClosed, AfterDisconnect, MarkReadySki, NormalizeSki;
      status, error := RuntimeFailed, reason;
      SetConnectionState(endpoint, OUTBOUND, LinkUpdate(Failed, Some(peer.certificateSki), SetError(reason)));
      Log(OutboundFailed(endpoint, peer, reason));
    }

    method MarkFailed(reason: string)
      requires Valid()
      modifies this
      ensures Valid() && Sound() && trace == old(trace) + [RuntimeBroke(reason)]
      ensures status == RuntimeFailed && error == reason && links == old(links) && peers == old(peers)
      ensures readyPeerSkis == old(readyPeerSkis) && activeDirections == old(activeDirections)
    {
      hide Run;
      status, error := RuntimeFailed, reason;
      Log(RuntimeBroke(reason));
    }

    method MarkClosed(reason: string, endpoint: string, direction: string)
      requires Valid()
      modifies this
      ensures Valid() && Sound() && trace == old(trace) + [LinkClosed(endpoint, direction, reason)]
      ensures readyPeerSkis == ReadySkis(peers, links) && peers == old(peers)
      ensures status == ShipReady <==> readyPeerSkis != {}
      ensures readyPeerSkis == {} ==> status == if old(status) == RuntimeFailed then RuntimeFailed else RuntimeClosed
      ensures OthersSame(links, old(links), endpoint, direction)
      ensures endpoint != "" && direction != "" ==>
                LinkAt(links, endpoint, direction) ==
                  Some(Link(Closed, SkiAt(old(links), endpoint, direction), Some(reason)))
    {
      hide View, Step, Run, AfterClosed, Sound, ReadySkis, NormalizeSki, LinkAt, SkiAt, OthersSame, Update;
      StepsSpelledOut(View());
      Close(reason, endpoint, direction);
      Log(LinkClosed(endpoint, direction, reason));
    }

    /** The locked region of a close. */
    method Close(reason: string, endpoint: string, direction: string)
      modifies this`links, this`activeDirections, this`readyPeerSkis, this`readyListing, this`currentPeerSki
      modifies this`status, this`error
      ensures View() == AfterClosed(old(View()), LinkClosed(endpoint, direction, reason))
      ensures readyPeerSkis == ReadySkis(peers, links)
      ensures status == ShipReady <==> readyPeerSkis != {}
      ensures readyPeerSkis == {} ==> status == if old(status) == RuntimeFailed then RuntimeFailed else RuntimeClosed
      ensures OthersSame(links, old(links), endpoint, direction)
      ensures endpoint != "" && direction != "" ==>
                LinkAt(links, endpoint, direction) ==
                  Some(Link(Closed, SkiAt(old(links), endpoint, direction), Some(reason)))
    {
      hide Update, Recompute, Merged;
      ClosedIs(LinkAt(links, endpoint, direction), reason);
      if endpoint != "" && direction != "" {
        SetConnectionState(endpoint, direction, LinkUpdate(Closed, None, SetError(reason)));
      }
      assert View() == Update(old(View()), endpoint, direction, LinkUpdate(Closed, None, SetError(reason))) by {
        UpdateOfNothing(old(View()), endpoint, direction, LinkUpdate(Closed, None, SetError(reason)));
      }
      RecomputeReadyPeerSkis();
      if readyPeerSkis != {} {
        status, error := ShipReady, "";
      } else if status != RuntimeFailed {
        status, error := RuntimeClosed, reason;
      }
    }

    static lemma UpdateOfNothing(s: State, endpoint: string, direction: string, u: LinkUpdate)
      ensures endpoint == "" || direction == "" ==> Update(s, endpoint, direction, u) == s
    {
    }

    /** Forgets the endpoint; a restart is then due with the returned directions unless none is left. */
    method DisconnectEndpoint(endpoint: string) returns (restart: Option<seq<string>>)
      requires Valid()
      modifies this
      ensures Valid() && Sound() && trace == old(trace) + [Disconnect(endpoint)]
      ensures restart.Some? <==> peers != map[]
      ensures restart.Some? ==> restart.value == RestartDirections(View(), [])
      ensures endpoint !in peers && endpoint !in links && readyPeerSkis == ReadySkis(peers, links)
      ensures peers != map[] ==> peers == old(peers) - {endpoint} && links == old(links) - {endpoint}
    {
      hide View, AfterDisconnect, Step, Run, RestartDirections;
      StepsSpelledOut(View());
      restart := Forget(endpoint);
      Log(Disconnect(endpoint));
    }

    /** The locked region of a disconnect. */
    method Forget(endpoint: string) returns (restart: Option<seq<string>>)
      modifies this
      ensures trace == old(trace) && View() == AfterDisconnect(old(View()), endpoint)
      ensures endpoint !in peers && endpoint !in links && readyPeerSkis == ReadySkis(peers, links)
      ensures peers != map[] ==> peers == old(peers) - {endpoint} && links == old(links) - {endpoint}
      ensures restart.Some? <==> peers != map[]
      ensures restart.Some? ==> restart.value == RestartDirections(View(), [])
    {
      hide Recompute, Text.SortedSet, Remove;
      peers := peers - {endpoint};
      order := Remove(order, endpoint);
      links := links - {endpoint};
      RecomputeReadyPeerSkis();
      var requested: seq<string> := [];
      var directions := Text.SortedSet((set d | d in requested) + (set d | d in activeDirections));
      if peers == map[] {
        Clear();
        assert ReadySkis(peers, links) == {};
        restart := None;
      } else {
        restart := Some(directions);
      }
    }

    method Clear()
      modifies this
      ensures View() == FRESH && trace == old(trace)
    {
      peers, order, links := map[], [], map[];
      readyPeerSkis, readyListing, activeDirections := {}, [], [];
      status, error, localSki, currentPeerSki := NotStarted, "", "", "";
    }

    method Stop()
      requires Valid()
      modifies this
      ensures Valid() && Sound() && trace == old(trace) + [Stopped]
      ensures peers == map[] && links == map[] && readyPeerSkis == {} && activeDirections == [] && status == NotStarted
    {
      hide Run;
      Clear();
      Log(Stopped);
    }

    method RecordTlsConnected(ski: string)
      requires Valid()
      modifies this
      ensures Valid() && Sound() && trace == old(trace) + [TlsConnected(ski)]
      ensures currentPeerSki == ski && links == old(links) && peers == old(peers) && readyPeerSkis == old(readyPeerSkis)
    {
      hide Run;
      currentPeerSki := ski;
      Log(TlsConnected(ski));
    }
  }
}
