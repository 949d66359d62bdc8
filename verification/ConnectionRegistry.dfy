/** The per-endpoint, per-direction connection registry of the EEBUS runtime: which peers are
    ready, which connection directions are in use, and what the runtime reports. */
module ConnectionRegistry {
  import opened Wrappers
  import opened PeerLink
  import Text

  const INBOUND := "inbound_from_peer"
  const OUTBOUND := "outbound_to_peer"

  datatype LinkStatus = Starting | Listening | Connecting | Ready | Failed | Closed

  /** The state of one direction of one endpoint; an absent peer SKI is empty. */
  datatype Link = Link(status: LinkStatus, peerSki: string, error: Option<string>)

  type Links = map<string, map<string, Link>>

  datatype Peer = Peer(certificateSki: string, host: string, port: int, path: string, serverName: string)

  datatype RuntimeStatus =
    | NotStarted | RuntimeStarting | RuntimeListening | RuntimeConnecting | ShipReady | RuntimeFailed | RuntimeClosed

  /** `order` lists the registered endpoints as they were first registered. */
  datatype State = State(
    peers: map<string, Peer>,
    order: seq<string>,
    links: Links,
    ready: set<string>,
    readyListing: seq<string>,
    activeDirections: seq<string>,
    status: RuntimeStatus,
    error: string,
    localSki: string,
    currentPeerSki: string)

  const FRESH := State(map[], [], map[], {}, [], [], NotStarted, "", "", "")

  predicate IsLive(status: LinkStatus) {
    status in {Starting, Listening, Connecting, Ready}
  }

  function LiveDirections(links: Links): set<string> {
    set endpoint, direction | endpoint in links && direction in links[endpoint]
                              && IsLive(links[endpoint][direction].status) :: direction
  }

  predicate ReadyAs(link: Link, ski: string) {
    link.status.Ready? && ski != "" && NormalizeSki(link.peerSki) == ski
  }

  /** The SKIs of the registered endpoints with a ready direction. */
  function ReadySkis(peers: map<string, Peer>, links: Links): (skis: set<string>)
    ensures forall ski :: ski in skis <==>
              exists endpoint, direction :: endpoint in peers && endpoint in links && direction in links[endpoint]
                                            && ReadyAs(links[endpoint][direction], ski)
  {
    set endpoint, direction | endpoint in links && direction in links[endpoint] && endpoint in peers
                              && ReadyAs(links[endpoint][direction], NormalizeSki(links[endpoint][direction].peerSki))
      :: NormalizeSki(links[endpoint][direction].peerSki)
  }

  function LinksOf(links: Links, endpoint: string): map<string, Link> {
    if endpoint in links then links[endpoint] else map[]
  }

  function LinkAt(links: Links, endpoint: string, direction: string): Option<Link> {
    if endpoint in links && direction in links[endpoint] then Some(links[endpoint][direction]) else None
  }

  /** The peer SKI a link names, empty when there is no link. */
  function SkiAt(links: Links, endpoint: string, direction: string): string {
    if LinkAt(links, endpoint, direction).Some? then LinkAt(links, endpoint, direction).value.peerSki else ""
  }

  datatype ErrorUpdate = KeepError | DropError | SetError(error: string)

  /** An update names a status, and a peer SKI or an error only when it says something about them. */
  datatype LinkUpdate = LinkUpdate(status: LinkStatus, peerSki: Option<string>, error: ErrorUpdate)

  function Merged(was: Option<Link>, u: LinkUpdate): Link {
    Link(u.status,
         if u.peerSki.Some? then u.peerSki.value else if was.Some? then was.value.peerSki else "",
         match u.error
         case KeepError => if was.Some? then was.value.error else None
         case DropError => None
         case SetError(error) => Some(error))
  }

  function SetLink(s: State, endpoint: string, direction: string, link: Link): State {
    if endpoint == "" || direction == "" then s else
    var links := s.links[endpoint := LinksOf(s.links, endpoint)[direction := link]];
    s.(links := links, activeDirections := Text.SortedSet(LiveDirections(links)))
  }

  function Update(s: State, endpoint: string, direction: string, u: LinkUpdate): State {
    SetLink(s, endpoint, direction, Merged(LinkAt(s.links, endpoint, direction), u))
  }

  function Recompute(s: State): State {
    var ready := ReadySkis(s.peers, s.links);
    var listing := Text.SortedSet(ready);
    s.(ready := ready, readyListing := listing,
       currentPeerSki :=
         if s.currentPeerSki in ready then s.currentPeerSki else if listing == [] then "" else listing[0])
  }

  function MarkReadySki(s: State, ski: string): State {
    if ski == "" then s.(readyListing := Text.SortedSet(s.ready)) else
    s.(ready := s.ready + {ski}, readyListing := Text.SortedSet(s.ready + {ski}), currentPeerSki := ski)
  }

  /** The first registered endpoint whose certificate has this SKI, or empty. */
  function EndpointFor(order: seq<string>, peers: map<string, Peer>, ski: string): string {
    if order == [] then ""
    else if order[0] in peers && NormalizeSki(peers[order[0]].certificateSki) == ski then order[0]
    else EndpointFor(order[1..], peers, ski)
  }

  // ---- Starting ----------------------------------------------------------------------

  /** The chosen direction alone; without a choice inbound, and outbound too when it is known where to. */
  function RequestedDirections(peer: Peer, choice: string): (directions: seq<string>)
    ensures forall d :: d in directions ==> d in {INBOUND, OUTBOUND}
    ensures INBOUND in directions <==> choice != OUTBOUND
    ensures OUTBOUND in directions <==> choice == OUTBOUND || (choice != INBOUND && peer.host != "" && peer.port != 0)
  {
    if choice == INBOUND then [INBOUND]
    else if choice == OUTBOUND then [OUTBOUND]
    else if peer.host != "" && peer.port != 0 then [INBOUND, OUTBOUND]
    else [INBOUND]
  }

  function Signature(peer: Peer): (string, string, int, string, string) {
    (NormalizeSki(peer.certificateSki), peer.host, peer.port,
     if peer.path != "" then peer.path else "/ship/", if peer.serverName != "" then peer.serverName else peer.host)
  }

  predicate CanReuse(s: State, endpoint: string, peer: Peer, directions: seq<string>, threadAlive: bool,
                     materialSki: string) {
    && threadAlive
    && s.status !in {RuntimeFailed, RuntimeClosed}
    && (s.localSki == "" || s.localSki == materialSki)
    && (endpoint in s.peers ==> Signature(s.peers[endpoint]) == Signature(peer))
    && forall d :: d in directions ==>
       LinkAt(s.links, endpoint, d).Some? && IsLive(LinkAt(s.links, endpoint, d).value.status)
  }

  function Register(s: State, endpoint: string, peer: Peer): State {
    s.(peers := s.peers[endpoint := peer], order := if endpoint in s.peers then s.order else s.order + [endpoint])
  }

  function Repair(s: State, endpoint: string, direction: string, peer: Peer): State {
    var link := LinkAt(s.links, endpoint, direction);
    var ski := NormalizeSki(peer.certificateSki);
    if link.Some? && link.value.status.Ready? then s
    else if ski != "" && exists row :: row in s.readyListing && NormalizeSki(row) == ski
    then Update(s, endpoint, direction, LinkUpdate(Ready, Some(ski), DropError))
    else s
  }

  function RepairAll(s: State, endpoint: string, directions: seq<string>, peer: Peer): State {
    if directions == [] then s
    else
      var n := |directions| - 1;
      Repair(RepairAll(s, endpoint, directions[..n], peer), endpoint, directions[n], peer)
  }

  function StartLink(s: State, endpoint: string, direction: string, peer: Peer): State {
    Update(s, endpoint, direction, LinkUpdate(Starting, Some(peer.certificateSki), KeepError))
  }

  function StartAll(s: State, endpoint: string, directions: seq<string>, peer: Peer): State {
    if directions == [] then s
    else
      var n := |directions| - 1;
      StartLink(StartAll(s, endpoint, directions[..n], peer), endpoint, directions[n], peer)
  }

  // ---- Steps -------------------------------------------------------------------------

  datatype Event =
    | Start(endpoint: string, peer: Peer, choice: string, threadAlive: bool, materialSki: string)
    | NowListening(localSki: string)
    | PeerReady(ski: string, endpoint: string, direction: string)
    | OutboundConnecting(endpoint: string, peer: Peer)
    | OutboundReady(endpoint: string, peer: Peer)
    | OutboundFailed(endpoint: string, peer: Peer, error: string)
    | RuntimeBroke(error: string)
    | LinkClosed(endpoint: string, direction: string, error: string)
    | Disconnect(endpoint: string)
    | TlsConnected(ski: string)
    | Stopped

  function AfterStart(s: State, e: Event): State
    requires e.Start?
  {
    var directions := RequestedDirections(e.peer, e.choice);
    var registered := Register(s, e.endpoint, e.peer);
    if CanReuse(s, e.endpoint, e.peer, directions, e.threadAlive, e.materialSki)
    then RepairAll(registered, e.endpoint, directions, e.peer)
    else StartAll(registered, e.endpoint, directions, e.peer).(status := RuntimeStarting, error := "")
  }

  function ListenOn(s: State, endpoints: seq<string>): State {
    if endpoints == [] then s else
    var earlier := ListenOn(s, endpoints[..|endpoints| - 1]);
    var last := endpoints[|endpoints| - 1];
    Update(earlier, last, INBOUND, LinkUpdate(Listening, None, KeepError))
  }

  function AfterPeerReady(s: State, e: Event): State
    requires e.PeerReady?
  {
    var ski := NormalizeSki(e.ski);
    var endpoint := if e.endpoint == "" && ski != "" then EndpointFor(s.order, s.peers, ski) else e.endpoint;
    var marked := MarkReadySki(s, ski).(status := ShipReady, error := "");
    if endpoint == "" then marked
    else
      var direction := if e.direction != "" then e.direction else INBOUND;
      Update(marked, endpoint, direction, LinkUpdate(Ready, Some(ski), DropError))
  }

  function AfterClosed(s: State, e: Event): State
    requires e.LinkClosed?
  {
    var r := Recompute(Update(s, e.endpoint, e.direction, LinkUpdate(Closed, None, SetError(e.error))));
    if r.ready != {} then r.(status := ShipReady, error := "")
    else if r.status != RuntimeFailed then r.(status := RuntimeClosed, error := e.error)
    else r
  }

  function Remove(order: seq<string>, endpoint: string): (r: seq<string>)
    ensures forall x :: x in r <==> x in order && x != endpoint
  {
    if order == [] then []
    else if order[0] == endpoint then Remove(order[1..], endpoint)
    else [order[0]] + Remove(order[1..], endpoint)
  }

  function AfterDisconnect(s: State, endpoint: string): State {
    var r := Recompute(s.(peers := s.peers - {endpoint}, order := Remove(s.order, endpoint),
                          links := s.links - {endpoint}));
    if r.peers == map[] then FRESH else r
  }

  function Step(s: State, e: Event): State {
    match e
    case Start(_, _, _, _, _) => AfterStart(s, e)
    case NowListening(localSki) => ListenOn(s.(status := RuntimeListening, error := "", localSki := localSki), s.order)
    case PeerReady(_, _, _) => AfterPeerReady(s, e)
    case OutboundConnecting(endpoint, peer) =>
      Update(s.(status := RuntimeConnecting, error := ""), endpoint, OUTBOUND,
             LinkUpdate(Connecting, Some(peer.certificateSki), KeepError))
    case OutboundReady(endpoint, peer) =>
      var ski := NormalizeSki(peer.certificateSki);
      Update(MarkReadySki(s, ski).(status := ShipReady, error := ""), endpoint, OUTBOUND,
             LinkUpdate(Ready, Some(ski), DropError))
    case OutboundFailed(endpoint, peer, error) =>
      Update(s.(status := RuntimeFailed, error := error), endpoint, OUTBOUND,
             LinkUpdate(Failed, Some(peer.certificateSki), SetError(error)))
    case RuntimeBroke(error) => s.(status := RuntimeFailed, error := error)
    case LinkClosed(_, _, _) => AfterClosed(s, e)
    case Disconnect(endpoint) => AfterDisconnect(s, endpoint)
    case TlsConnected(ski) => s.(currentPeerSki := ski)
    case Stopped => FRESH
  }

  /** The three steps that can lose a link. */
  lemma StepsSpelledOut(s: State)
    ensures forall endpoint :: Step(s, Disconnect(endpoint)) == AfterDisconnect(s, endpoint)
    ensures forall e: Event | e.LinkClosed? :: Step(s, e) == AfterClosed(s, e)
    ensures forall e: Event | e.Start? :: Step(s, e) == AfterStart(s, e)
  {
    hide AfterDisconnect, AfterClosed, AfterStart;
  }

  /** The directions the runtime is restarted with. */
  function RestartDirections(s: State, requested: seq<string>): seq<string> {
    Text.SortedSet((set d | d in requested) + (set d | d in s.activeDirections))
  }

  // ---- What every run keeps ----------------------------------------------------------

  /** The event names no endpoint, or a registered one. */
  predicate NamesRegistered(s: State, e: Event) {
    match e
    case PeerReady(_, endpoint, _) => endpoint == "" || endpoint in s.peers
    case OutboundConnecting(endpoint, _) => endpoint in s.peers
    case OutboundReady(endpoint, _) => endpoint in s.peers
    case OutboundFailed(endpoint, _, _) => endpoint in s.peers
    case LinkClosed(endpoint, _, _) => endpoint == "" || endpoint in s.peers
    case Start(endpoint, _, _, _, _) => endpoint != ""
    case _ => true
  }

  ghost predicate Consistent(s: State) {
    && s.readyListing == Text.SortedSet(s.ready)
    && (forall ski :: ski in s.ready ==> ski != "" && NormalizeSki(ski) == ski)
    && ReadySkis(s.peers, s.links) <= s.ready
    && (forall d :: d in LiveDirections(s.links) ==> d in s.activeDirections)
    && (forall endpoint :: endpoint in s.links ==> endpoint in s.peers)
    && (forall endpoint :: endpoint in s.order <==> endpoint in s.peers)
  }

  function Run(trace: seq<Event>): State {
    if trace == [] then FRESH else Step(Run(trace[..|trace| - 1]), trace[|trace| - 1])
  }

  ghost predicate Registered(trace: seq<Event>) {
    forall i :: 0 <= i < |trace| ==> NamesRegistered(Run(trace[..i]), trace[i])
  }

  /** Setting a link of a registered endpoint keeps the registry consistent when a ready link's
      SKI is already among the ready ones, and makes the cached directions exact. */
  lemma SetLinkKeeps(s: State, endpoint: string, direction: string, link: Link)
    requires Consistent(s) && (endpoint == "" || endpoint in s.peers)
    requires link.status.Ready? ==> NormalizeSki(link.peerSki) == "" || NormalizeSki(link.peerSki) in s.ready
    ensures
      var r := SetLink(s, endpoint, direction, link);
      && Consistent(r)
      && r == s.(links := r.links, activeDirections := r.activeDirections)
      && (endpoint == "" || direction == "" ==> r == s)
      && (endpoint != "" && direction != "" ==>
            (forall d :: d in r.activeDirections <==> d in LiveDirections(r.links)) &&
              LinkAt(r.links, endpoint, direction) == Some(link))
      && (forall other, d :: (other, d) != (endpoint, direction) ==>
          LinkAt(r.links, other, d) == LinkAt(s.links, other, d))
  {
    hide NormalizeSki, Text.SortedSet;
    var r := SetLink(s, endpoint, direction, link);
    if endpoint != "" && direction != "" {
      forall ski | ski in ReadySkis(r.peers, r.links) ensures ski in r.ready {
        var other, d :| other in r.peers && other in r.links && d in r.links[other] && ReadyAs(r.links[other][d], ski);
        if (other, d) != (endpoint, direction) {
          assert other in s.links && d in s.links[other] && ReadyAs(s.links[other][d], ski);
          assert ski in ReadySkis(s.peers, s.links);
        }
      }
    }
  }

  lemma UpdateKeeps(s: State, endpoint: string, direction: string, u: LinkUpdate)
    requires Consistent(s) && (endpoint == "" || endpoint in s.peers)
    requires u.status.Ready? ==>
               u.peerSki.Some? && (NormalizeSki(u.peerSki.value) == "" || NormalizeSki(u.peerSki.value) in s.ready)
    ensures
      var r := Update(s, endpoint, direction, u);
      && Consistent(r)
      && r == s.(links := r.links, activeDirections := r.activeDirections)
      && (endpoint == "" || direction == "" ==> r == s)
      && (endpoint != "" && direction != "" ==>
            && LinkAt(r.links, endpoint, direction) == Some(Merged(LinkAt(s.links, endpoint, direction), u))
            && (forall d :: d in r.activeDirections <==> d in LiveDirections(r.links)))
      && (forall other, d :: (other, d) != (endpoint, direction) ==>
          LinkAt(r.links, other, d) == LinkAt(s.links, other, d))
  {
    hide NormalizeSki, Text.SortedSet, SetLink, Consistent;
    SetLinkKeeps(s, endpoint, direction, Merged(LinkAt(s.links, endpoint, direction), u));
  }

  predicate IsStarting(s: State, endpoint: string, direction: string) {
    LinkAt(s.links, endpoint, direction).Some? && LinkAt(s.links, endpoint, direction).value.status.Starting?
  }

  lemma StartLinkKeeps(s: State, endpoint: string, direction: string, peer: Peer)
    requires Consistent(s) && endpoint in s.peers
    ensures
      var r := StartLink(s, endpoint, direction, peer);
      && Consistent(r)
      && r == s.(links := r.links, activeDirections := r.activeDirections)
      && (endpoint != "" && direction != "" ==>
            IsStarting(r, endpoint, direction))
      && (forall d :: d != direction && IsStarting(s, endpoint, d) ==> IsStarting(r, endpoint, d))
  {
    hide NormalizeSki, Text.SortedSet, Consistent, Update;
    UpdateKeeps(s, endpoint, direction, LinkUpdate(Starting, Some(peer.certificateSki), KeepError));
  }

  lemma {:induction false} StartAllKeeps(s: State, endpoint: string, directions: seq<string>, peer: Peer)
    requires Consistent(s) && endpoint in s.peers && endpoint != ""
    requires "" !in directions
    ensures
      var r := StartAll(s, endpoint, directions, peer);
      && Consistent(r)
      && r == s.(links := r.links, activeDirections := r.activeDirections)
      && (forall i :: 0 <= i < |directions| ==> IsStarting(r, endpoint, directions[i]))
  {
    hide NormalizeSki, Text.SortedSet, Consistent, StartLink, Update, IsStarting;
    if directions != [] {
      var front, last := directions[..|directions| - 1], directions[|directions| - 1];
      var earlier := StartAll(s, endpoint, front, peer);
      StartAllKeeps(s, endpoint, front, peer);
      StartLinkKeeps(earlier, endpoint, last, peer);
      forall i | 0 <= i < |directions|
        ensures IsStarting(StartLink(earlier, endpoint, last, peer), endpoint, directions[i]) {
        if i < |front| { assert front[i] == directions[i]; }
      }
    }
  }

  lemma RepairKeeps(s: State, endpoint: string, direction: string, peer: Peer)
    requires Consistent(s) && endpoint in s.peers
    ensures
      var r := Repair(s, endpoint, direction, peer);
      && Consistent(r)
      && r == s.(links := r.links, activeDirections := r.activeDirections)
      && (forall d :: LinkAt(s.links, endpoint, d).Some? && IsLive(LinkAt(s.links, endpoint, d).value.status) ==>
            LinkAt(r.links, endpoint, d).Some? && IsLive(LinkAt(r.links, endpoint, d).value.status))
  {
    hide NormalizeSki, Text.SortedSet, Update;
    var ski := NormalizeSki(peer.certificateSki);
    NormalizeIdempotent(peer.certificateSki);
    if ski != "" && exists row :: row in s.readyListing && NormalizeSki(row) == ski {
      var row :| row in s.readyListing && NormalizeSki(row) == ski;
      assert row in s.ready;
      UpdateKeeps(s, endpoint, direction, LinkUpdate(Ready, Some(ski), DropError));
    }
  }

  lemma {:induction false} RepairAllKeeps(s: State, endpoint: string, directions: seq<string>, peer: Peer)
    requires Consistent(s) && endpoint in s.peers
    ensures
      var r := RepairAll(s, endpoint, directions, peer);
      && Consistent(r)
      && r == s.(links := r.links, activeDirections := r.activeDirections)
      && (forall d :: LinkAt(s.links, endpoint, d).Some? && IsLive(LinkAt(s.links, endpoint, d).value.status) ==>
            LinkAt(r.links, endpoint, d).Some? && IsLive(LinkAt(r.links, endpoint, d).value.status))
  {
    hide NormalizeSki, Text.SortedSet, Consistent, Repair;
    if directions != [] {
      var n := |directions| - 1;
      RepairAllKeeps(s, endpoint, directions[..n], peer);
      RepairKeeps(RepairAll(s, endpoint, directions[..n], peer), endpoint, directions[n], peer);
    }
  }

  // ---- What an update touches --------------------------------------------------------

  ghost predicate OthersSame(links: Links, was: Links, endpoint: string, direction: string) {
    forall other, d :: (other, d) != (endpoint, direction) ==> LinkAt(links, other, d) == LinkAt(was, other, d)
  }

  lemma UpdateTouchesOne(s: State, endpoint: string, direction: string, u: LinkUpdate)
    ensures
      var r := Update(s, endpoint, direction, u);
      && r == s.(links := r.links, activeDirections := r.activeDirections)
      && OthersSame(r.links, s.links, endpoint, direction)
      && (endpoint == "" || direction == "" ==> r == s)
      && (endpoint != "" && direction != "" ==>
            LinkAt(r.links, endpoint, direction) == Some(Merged(LinkAt(s.links, endpoint, direction), u)))
  {
    hide Text.SortedSet, LiveDirections, Merged;
  }

  /** Listening touches the inbound link of each listed endpoint. */
  lemma {:induction false} ListenTouchesInbound(s: State, endpoints: seq<string>)
    ensures
      var r := ListenOn(s, endpoints);
      && r == s.(links := r.links, activeDirections := r.activeDirections)
      && (forall other, d :: other !in endpoints || d != INBOUND ==>
          LinkAt(r.links, other, d) == LinkAt(s.links, other, d))
      && (forall endpoint :: endpoint in endpoints && endpoint != "" ==> IsListening(r.links, endpoint))
      && (forall other, d :: SkiAt(r.links, other, d) == SkiAt(s.links, other, d))
  {
    hide Update, IsListening;
    if endpoints != [] {
      var front, last := endpoints[..|endpoints| - 1], endpoints[|endpoints| - 1];
      var earlier, u := ListenOn(s, front), LinkUpdate(Listening, None, KeepError);
      assert forall endpoint :: endpoint in endpoints <==> endpoint in front || endpoint == last;
      ListenTouchesInbound(s, front);
      UpdateTouchesOne(earlier, last, INBOUND, u);
      ListeningKeepsSki(earlier, last);
      forall endpoint | endpoint in endpoints && endpoint != ""
        ensures IsListening(Update(earlier, last, INBOUND, u).links, endpoint)
      {
        StillListening(earlier.links, Update(earlier, last, INBOUND, u).links, endpoint, last);
      }
    }
  }

  lemma ListeningKeepsSki(s: State, endpoint: string)
    ensures
      var r := Update(s, endpoint, INBOUND, LinkUpdate(Listening, None, KeepError));
      forall other, d :: SkiAt(r.links, other, d) == SkiAt(s.links, other, d)
  {
    hide Update;
    UpdateTouchesOne(s, endpoint, INBOUND, LinkUpdate(Listening, None, KeepError));
  }

  lemma ClosedIs(was: Option<Link>, reason: string)
    ensures Merged(was, LinkUpdate(Closed, None, SetError(reason))) ==
            Link(Closed, if was.Some? then was.value.peerSki else "", Some(reason))
  {
  }

  lemma StillListening(was: Links, links: Links, endpoint: string, last: string)
    requires OthersSame(links, was, last, INBOUND)
    requires endpoint == last || IsListening(was, endpoint)
    requires endpoint == last ==>
               LinkAt(links, last, INBOUND).Some? && LinkAt(links, last, INBOUND).value.status.Listening?
    ensures IsListening(links, endpoint)
  {
  }

  predicate IsListening(links: Links, endpoint: string) {
    LinkAt(links, endpoint, INBOUND).Some? && LinkAt(links, endpoint, INBOUND).value.status.Listening?
  }

  // ---- What a start touches ----------------------------------------------------------

  /** The link is starting, towards the certificate's SKI. */
  predicate StartedAs(links: Links, endpoint: string, direction: string, ski: string) {
    && LinkAt(links, endpoint, direction).Some?
    && LinkAt(links, endpoint, direction).value.status.Starting?
    && LinkAt(links, endpoint, direction).value.peerSki == ski
  }

  /** A start overwrites exactly the requested links of the endpoint, unless the session is reused. */
  lemma {:induction false} StartAllLinks(s: State, endpoint: string, directions: seq<string>, peer: Peer)
    requires endpoint != "" && "" !in directions
    ensures
      var r := StartAll(s, endpoint, directions, peer);
      && r == s.(links := r.links, activeDirections := r.activeDirections)
      && (forall other, d :: other != endpoint || d !in directions ==>
          LinkAt(r.links, other, d) == LinkAt(s.links, other, d))
      && (forall d :: d in directions ==> StartedAs(r.links, endpoint, d, peer.certificateSki))
  {
    hide StartLink;
    if directions != [] {
      var front, last := directions[..|directions| - 1], directions[|directions| - 1];
      var earlier := StartAll(s, endpoint, front, peer);
      assert forall d :: d in directions <==> d in front || d == last;
      StartAllLinks(s, endpoint, front, peer);
      StartLinkLinks(earlier, endpoint, last, peer);
    }
  }

  lemma StartLinkLinks(s: State, endpoint: string, direction: string, peer: Peer)
    requires endpoint != "" && direction != ""
    ensures
      var r := StartLink(s, endpoint, direction, peer);
      && r == s.(links := r.links, activeDirections := r.activeDirections)
      && (forall other, d :: (other, d) != (endpoint, direction) ==>
          LinkAt(r.links, other, d) == LinkAt(s.links, other, d))
      && StartedAs(r.links, endpoint, direction, peer.certificateSki)
  {
    hide Text.SortedSet, LiveDirections, NormalizeSki;
  }

  /** A repair of a reused session touches only requested links that are not ready, and makes them
      ready under a SKI that is listed as ready. */
  lemma {:induction false} RepairAllLinks(s: State, endpoint: string, directions: seq<string>, peer: Peer)
    requires s.readyListing == Text.SortedSet(s.ready)
    requires forall ski :: ski in s.ready ==> NormalizeSki(ski) == ski
    ensures
      var r := RepairAll(s, endpoint, directions, peer);
      && r == s.(links := r.links, activeDirections := r.activeDirections)
      && (forall other, d :: other != endpoint || d !in directions ==>
          LinkAt(r.links, other, d) == LinkAt(s.links, other, d))
      && (forall d :: LinkAt(r.links, endpoint, d) == LinkAt(s.links, endpoint, d) || IsRepaired(s, r, endpoint, d))
    ensures endpoint != "" && "" !in directions ==>
              forall d :: d in directions ==>
                RepairedIff(s, RepairAll(s, endpoint, directions, peer), endpoint, d, peer)
  {
    hide Text.SortedSet, LiveDirections, NormalizeSki, Repair, IsRepaired, RepairedIff;
    if directions != [] {
      var front, last := directions[..|directions| - 1], directions[|directions| - 1];
      var earlier := RepairAll(s, endpoint, front, peer);
      RepairAllLinks(s, endpoint, front, peer);
      RepairLinks(earlier, endpoint, last, peer);
      forall d
        ensures LinkAt(Repair(earlier, endpoint, last, peer).links, endpoint, d) == LinkAt(s.links, endpoint, d) ||
                IsRepaired(s, Repair(earlier, endpoint, last, peer), endpoint, d)
      {
        RepairedTwice(s, earlier, Repair(earlier, endpoint, last, peer), endpoint, d);
      }
      if endpoint != "" && "" !in directions {
        forall d | d in directions
          ensures RepairedIff(s, Repair(earlier, endpoint, last, peer), endpoint, d, peer)
        {
          assert d in front || d == last;
          assert last in directions;
          RepairedOnce(s, earlier, Repair(earlier, endpoint, last, peer), endpoint, front, last, d, peer);
        }
      }
    }
  }

  lemma RepairedOnce(s: State, t: State, r: State, endpoint: string, front: seq<string>, last: string, d: string,
                     peer: Peer)
    requires s.ready == t.ready && (d in front || d == last)
    requires d in front ==> RepairedIff(s, t, endpoint, d, peer)
    requires d !in front ==> LinkAt(t.links, endpoint, d) == LinkAt(s.links, endpoint, d)
    requires d == last ==> RepairedIff(t, r, endpoint, d, peer)
    requires d != last ==> LinkAt(r.links, endpoint, d) == LinkAt(t.links, endpoint, d)
    ensures RepairedIff(s, r, endpoint, d, peer)
  {
    hide NormalizeSki;
  }

  ghost predicate IsRepaired(s: State, r: State, endpoint: string, direction: string) {
    && (LinkAt(s.links, endpoint, direction).Some? ==> !LinkAt(s.links, endpoint, direction).value.status.Ready?)
    && LinkAt(r.links, endpoint, direction).Some?
    && LinkAt(r.links, endpoint, direction).value.status.Ready?
    && NormalizeSki(LinkAt(r.links, endpoint, direction).value.peerSki) in s.ready
  }

  /** A link that was not ready is made ready under the peer's own SKI exactly when that SKI is among the
      ready ones; every other link stays. */
  ghost predicate RepairedIff(s: State, r: State, endpoint: string, direction: string, peer: Peer) {
    var ski, link := NormalizeSki(peer.certificateSki), LinkAt(s.links, endpoint, direction);
    if ski == "" || ski !in s.ready || (link.Some? && link.value.status == Ready)
    then LinkAt(r.links, endpoint, direction) == link
    else LinkAt(r.links, endpoint, direction).Some?
         && LinkAt(r.links, endpoint, direction).value.status == Ready
         && LinkAt(r.links, endpoint, direction).value.peerSki == ski
  }

  lemma RepairedTwice(s: State, t: State, r: State, endpoint: string, d: string)
    requires s.ready == t.ready
    requires LinkAt(t.links, endpoint, d) == LinkAt(s.links, endpoint, d) || IsRepaired(s, t, endpoint, d)
    requires LinkAt(r.links, endpoint, d) == LinkAt(t.links, endpoint, d) || IsRepaired(t, r, endpoint, d)
    ensures LinkAt(r.links, endpoint, d) == LinkAt(s.links, endpoint, d) || IsRepaired(s, r, endpoint, d)
  {
    hide NormalizeSki;
  }

  lemma RepairLinks(s: State, endpoint: string, direction: string, peer: Peer)
    requires s.readyListing == Text.SortedSet(s.ready)
    requires forall ski :: ski in s.ready ==> NormalizeSki(ski) == ski
    ensures
      var r := Repair(s, endpoint, direction, peer);
      && r == s.(links := r.links, activeDirections := r.activeDirections)
      && (forall other, d :: (other, d) != (endpoint, direction) ==>
          LinkAt(r.links, other, d) == LinkAt(s.links, other, d))
      && (LinkAt(r.links, endpoint, direction) == LinkAt(s.links, endpoint, direction) ||
          IsRepaired(s, r, endpoint, direction))
      && (endpoint != "" && direction != "" ==> RepairedIff(s, r, endpoint, direction, peer))
  {
    hide Text.SortedSet, LiveDirections, NormalizeSki;
    NormalizeIdempotent(peer.certificateSki);
  }

  predicate Reuses(s: State, e: Event)
    requires e.Start?
  {
    CanReuse(s, e.endpoint, e.peer, RequestedDirections(e.peer, e.choice), e.threadAlive, e.materialSki)
  }

  /** A start leaves every other endpoint's links alone, and of its own endpoint every direction that
      was not requested. */
  lemma StartLinks(s: State, e: Event)
    requires e.Start? && e.endpoint != ""
    requires s.readyListing == Text.SortedSet(s.ready)
    requires forall ski :: ski in s.ready ==> NormalizeSki(ski) == ski
    ensures
      var r, requested := AfterStart(s, e), RequestedDirections(e.peer, e.choice);
      && r.ready == s.ready && r.peers == s.peers[e.endpoint := e.peer]
      && (forall other, d :: other != e.endpoint || d !in requested ==>
          LinkAt(r.links, other, d) == LinkAt(s.links, other, d))
      && (if Reuses(s, e)
          then (forall d ::
                  LinkAt(r.links, e.endpoint, d) == LinkAt(s.links, e.endpoint, d) || IsRepaired(s, r, e.endpoint, d))
               && forall d :: d in requested ==> RepairedIff(s, r, e.endpoint, d, e.peer)
          else forall d :: d in requested ==> StartedAs(r.links, e.endpoint, d, e.peer.certificateSki))
  {
    hide Text.SortedSet, NormalizeSki, StartAll, RepairAll, CanReuse, IsRepaired, RepairedIff, StartedAs;
    var requested := RequestedDirections(e.peer, e.choice);
    var registered := Register(s, e.endpoint, e.peer);
    if Reuses(s, e) {
      RepairAllLinks(registered, e.endpoint, requested, e.peer);
      var r := RepairAll(registered, e.endpoint, requested, e.peer);
      forall d
        ensures IsRepaired(registered, r, e.endpoint, d) <==> IsRepaired(s, r, e.endpoint, d)
        ensures RepairedIff(registered, r, e.endpoint, d, e.peer) <==> RepairedIff(s, r, e.endpoint, d, e.peer)
      {
        RepairedSameLinks(registered, s, r, e.endpoint, d, e.peer);
      }
    } else {
      StartAllLinks(registered, e.endpoint, requested, e.peer);
    }
  }

  lemma RepairedSameLinks(s: State, t: State, r: State, endpoint: string, d: string, peer: Peer)
    requires s.links == t.links && s.ready == t.ready
    ensures IsRepaired(s, r, endpoint, d) <==> IsRepaired(t, r, endpoint, d)
    ensures RepairedIff(s, r, endpoint, d, peer) <==> RepairedIff(t, r, endpoint, d, peer)
  {
  }

  /** The path and the server name a peer is reached under when it names none itself. */
  function PathOf(peer: Peer): (path: string)
    ensures path != "" && (peer.path != "" ==> path == peer.path)
  {
    if peer.path != "" then peer.path else "/ship/"
  }

  function ServerOf(peer: Peer): (name: string)
    ensures peer.serverName != "" ==> name == peer.serverName
    ensures peer.serverName == "" ==> name == peer.host
  {
    if peer.serverName != "" then peer.serverName else peer.host
  }

  /** The running session is reused only where nothing the peer is reached by has changed and every
      requested direction is in use. */
  lemma ReuseNeeds(s: State, e: Event)
    requires e.Start? && Reuses(s, e)
    ensures e.threadAlive && s.status != RuntimeFailed && s.status != RuntimeClosed
    ensures s.localSki == "" || s.localSki == e.materialSki
    ensures e.endpoint in s.peers ==>
              && NormalizeSki(s.peers[e.endpoint].certificateSki) == NormalizeSki(e.peer.certificateSki)
              && s.peers[e.endpoint].host == e.peer.host && s.peers[e.endpoint].port == e.peer.port
              && PathOf(s.peers[e.endpoint]) == PathOf(e.peer) && ServerOf(s.peers[e.endpoint]) == ServerOf(e.peer)
    ensures forall d :: d in RequestedDirections(e.peer, e.choice) ==>
              LinkAt(s.links, e.endpoint, d).Some? && IsLive(LinkAt(s.links, e.endpoint, d).value.status)
  {
    hide NormalizeSki, RequestedDirections;
  }

  /** And starting the same endpoint again, with the thread running and the same material, reuses it. */
  lemma StartAgainReuses(s: State, e: Event)
    requires e.Start? && e.endpoint != "" && !Reuses(s, e) && (s.localSki == "" || s.localSki == e.materialSki)
    requires s.readyListing == Text.SortedSet(s.ready)
    requires forall ski :: ski in s.ready ==> NormalizeSki(ski) == ski
    ensures Reuses(AfterStart(s, e), e.(threadAlive := true))
  {
    hide NormalizeSki, Text.SortedSet, StartAll, RequestedDirections;
    StartLinks(s, e);
    StartAllLinks(Register(s, e.endpoint, e.peer), e.endpoint, RequestedDirections(e.peer, e.choice), e.peer);
  }

  /** Registering or updating an endpoint keeps the registry consistent, leaves every requested
      direction of it live, whether or not the running session is reused, and leaves every other
      link alone. */
  lemma StartKeeps(s: State, e: Event)
    requires Consistent(s) && e.Start? && e.endpoint != ""
    ensures
      var r := AfterStart(s, e);
      && Consistent(r)
      && r.peers == s.peers[e.endpoint := e.peer]
      && (forall d :: d in RequestedDirections(e.peer, e.choice) ==>
            LinkAt(r.links, e.endpoint, d).Some? && IsLive(LinkAt(r.links, e.endpoint, d).value.status))
      && (forall other, d :: other != e.endpoint || d !in RequestedDirections(e.peer, e.choice) ==>
            LinkAt(r.links, other, d) == LinkAt(s.links, other, d))
  {
    StartLinks(s, e);
    var directions := RequestedDirections(e.peer, e.choice);
    var registered := Register(s, e.endpoint, e.peer);
    RegisterKeeps(s, e.endpoint, e.peer);
    if CanReuse(s, e.endpoint, e.peer, directions, e.threadAlive, e.materialSki) {
      RepairAllKeeps(registered, e.endpoint, directions, e.peer);
    } else {
      StartAllKeeps(registered, e.endpoint, directions, e.peer);
      StatusKeeps(StartAll(registered, e.endpoint, directions, e.peer), RuntimeStarting, "");
    }
  }

  lemma RegisterKeeps(s: State, endpoint: string, peer: Peer)
    requires Consistent(s)
    ensures Consistent(Register(s, endpoint, peer))
  {
    hide NormalizeSki, Text.SortedSet;
    var r := Register(s, endpoint, peer);
    assert ReadySkis(r.peers, r.links) == ReadySkis(s.peers, s.links);
  }

  lemma StatusKeeps(s: State, status: RuntimeStatus, error: string)
    requires Consistent(s)
    ensures Consistent(s.(status := status, error := error))
  {
  }

  lemma {:induction false} ListenKeeps(s: State, endpoints: seq<string>)
    requires Consistent(s)
    requires forall endpoint :: endpoint in endpoints ==> endpoint in s.peers
    ensures
      var r := ListenOn(s, endpoints);
      Consistent(r) && r == s.(links := r.links, activeDirections := r.activeDirections)
  {
    hide NormalizeSki, Text.SortedSet, Consistent, Update;
    if endpoints != [] {
      var n := |endpoints| - 1;
      ListenKeeps(s, endpoints[..n]);
      assert endpoints[n] in endpoints;
      var earlier := ListenOn(s, endpoints[..n]);
      UpdateKeeps(earlier, endpoints[n], INBOUND, LinkUpdate(Listening, None, KeepError));
    }
  }

  lemma MarkReadyKeeps(s: State, ski: string)
    requires Consistent(s)
    ensures
      var r := MarkReadySki(s, NormalizeSki(ski));
      && Consistent(r) && s.ready <= r.ready && r.peers == s.peers
      && (NormalizeSki(ski) == "" || NormalizeSki(ski) in r.ready)
  {
    hide Consistent, NormalizeSki, Text.SortedSet;
    NormalizeIdempotent(ski);
    MarkNormalKeeps(s, NormalizeSki(ski));
  }

  lemma MarkNormalKeeps(s: State, ski: string)
    requires Consistent(s) && NormalizeSki(ski) == ski
    ensures Consistent(MarkReadySki(s, ski))
  {
    hide Consistent, NormalizeSki, Text.SortedSet;
    MoreReadyKeeps(s, MarkReadySki(s, ski), ski);
  }

  lemma MoreReadyKeeps(s: State, r: State, ski: string)
    requires Consistent(s)
    requires r.peers == s.peers && r.links == s.links && r.order == s.order && r.activeDirections == s.activeDirections
    requires r.ready == if ski == "" then s.ready else s.ready + {ski}
    requires r.readyListing == Text.SortedSet(r.ready) && NormalizeSki(ski) == ski
    ensures Consistent(r)
  {
    hide NormalizeSki, ReadySkis, LiveDirections, Text.SortedSet;
  }

  lemma {:induction false} EndpointForIsRegistered(order: seq<string>, peers: map<string, Peer>, ski: string)
    ensures
      var endpoint := EndpointFor(order, peers, ski);
      && (endpoint == "" || (endpoint in peers && NormalizeSki(peers[endpoint].certificateSki) == ski))
      && (endpoint == "" && "" !in order ==>
            forall other :: other in order && other in peers ==> NormalizeSki(peers[other].certificateSki) != ski)
  {
    hide NormalizeSki;
    if order != [] {
      EndpointForIsRegistered(order[1..], peers, ski);
    }
  }

  lemma ReadySkisAreNormal(peers: map<string, Peer>, links: Links)
    ensures forall ski :: ski in ReadySkis(peers, links) ==> ski != "" && NormalizeSki(ski) == ski
  {
    hide NormalizeSki;
    forall ski | ski in ReadySkis(peers, links) ensures NormalizeSki(ski) == ski && ski != "" {
      var endpoint, d :| endpoint in peers && endpoint in links && d in links[endpoint] &&
          ReadyAs(links[endpoint][d], ski);
      NormalizeIdempotent(links[endpoint][d].peerSki);
    }
  }

  /** Recomputing makes the ready set exactly the SKIs with a ready direction, and the current
      peer one of them unless there is none. */
  lemma RecomputeIsExact(s: State)
    requires forall d :: d in LiveDirections(s.links) ==> d in s.activeDirections
    requires forall endpoint :: endpoint in s.links ==> endpoint in s.peers
    requires forall endpoint :: endpoint in s.order <==> endpoint in s.peers
    ensures
      var r := Recompute(s);
      && Consistent(r)
      && r == s.(ready := r.ready, readyListing := r.readyListing, currentPeerSki := r.currentPeerSki)
      && r.ready == ReadySkis(r.peers, r.links)
      && (if r.ready == {} then r.currentPeerSki == "" else r.currentPeerSki in r.ready)
  {
    hide NormalizeSki, ReadySkis, Text.SortedSet;
    var r := Recompute(s);
    ReadySkisAreNormal(s.peers, s.links);
    assert ReadySkis(r.peers, r.links) == r.ready;
    assert r.readyListing != [] ==> r.readyListing[0] in r.readyListing;
    assert r.ready == {} <==> r.readyListing == [];
  }

  ghost predicate HasReady(s: State, endpoint: string, direction: string, ski: string) {
    endpoint in s.peers && LinkAt(s.links, endpoint, direction).Some? &&
      ReadyAs(LinkAt(s.links, endpoint, direction).value, ski)
  }

  /** Closing one link: the ready set is exact again, and the runtime stays ready exactly as long
      as some registered endpoint still has a ready direction. */
  lemma ClosingKeepsOthersReady(s: State, e: Event)
    requires Consistent(s) && e.LinkClosed? && (e.endpoint == "" || e.endpoint in s.peers)
    ensures
      var r := AfterClosed(s, e);
      && Consistent(r)
      && r.ready == ReadySkis(r.peers, r.links)
      && (r.status == ShipReady <==> r.ready != {})
      && (r.ready == {} ==> r.status == if s.status == RuntimeFailed then RuntimeFailed else RuntimeClosed)
      && (forall other, d :: (other, d) != (e.endpoint, e.direction) ==>
          LinkAt(r.links, other, d) == LinkAt(s.links, other, d))
      && (forall other, d, ski | (other, d) != (e.endpoint, e.direction) &&
          HasReady(s, other, d, ski) :: ski in r.ready)
  {
    hide NormalizeSki, Text.SortedSet, Recompute, Update, ReadySkis;
    var u := LinkUpdate(Closed, None, SetError(e.error));
    UpdateKeeps(s, e.endpoint, e.direction, u);
    var t := Update(s, e.endpoint, e.direction, u);
    RecomputeIsExact(t);
    var r := AfterClosed(s, e);
    StatusKeeps(Recompute(t), r.status, r.error);
    forall other, d, ski | (other, d) != (e.endpoint, e.direction) && HasReady(s, other, d, ski)
      ensures ski in r.ready
    {
      assert LinkAt(t.links, other, d) == LinkAt(s.links, other, d);
    }
  }

  /** Disconnecting forgets the endpoint entirely; with the last one the registry starts afresh. */
  lemma DisconnectIsExact(s: State, endpoint: string)
    requires Consistent(s)
    ensures
      var r := AfterDisconnect(s, endpoint);
      && Consistent(r)
      && r.ready == ReadySkis(r.peers, r.links)
      && endpoint !in r.peers && endpoint !in r.links
      && (r.peers != map[] ==> forall other, d :: other != endpoint ==>
          LinkAt(r.links, other, d) == LinkAt(s.links, other, d))
      && (forall other :: other != endpoint ==> (other in r.peers <==> other in s.peers))
  {
    hide NormalizeSki, ReadySkis, Text.SortedSet, Recompute;
    var t := s.(peers := s.peers - {endpoint}, order := Remove(s.order, endpoint), links := s.links - {endpoint});
    forall d | d in LiveDirections(t.links) ensures d in t.activeDirections {
      assert d in LiveDirections(s.links);
    }
    RecomputeIsExact(t);
    FreshIsConsistent();
    forall other | other != endpoint && other in s.peers ensures Recompute(t).peers != map[] {
      assert other in t.peers;
    }
  }

  lemma OutboundKeeps(s: State, e: Event)
    requires Consistent(s) && (e.OutboundConnecting? || e.OutboundReady? || e.OutboundFailed?)
    requires e.endpoint in s.peers
    ensures Consistent(Step(s, e))
    ensures e.OutboundReady? && NormalizeSki(e.peer.certificateSki) != "" ==>
            NormalizeSki(e.peer.certificateSki) in Step(s, e).ready
  {
    hide NormalizeSki, Text.SortedSet, Consistent, Update, MarkReadySki;
    var ski := NormalizeSki(e.peer.certificateSki);
    match e {
      case OutboundConnecting(endpoint, peer) =>
        StatusKeeps(s, RuntimeConnecting, "");
        UpdateKeeps(s.(status := RuntimeConnecting, error := ""), endpoint, OUTBOUND,
                    LinkUpdate(Connecting, Some(peer.certificateSki), KeepError));
      case OutboundReady(endpoint, peer) =>
        MarkReadyKeeps(s, peer.certificateSki);
        NormalizeIdempotent(peer.certificateSki);
        StatusKeeps(MarkReadySki(s, ski), ShipReady, "");
        UpdateKeeps(MarkReadySki(s, ski).(status := ShipReady, error := ""), endpoint, OUTBOUND,
                    LinkUpdate(Ready, Some(ski), DropError));
      case OutboundFailed(endpoint, peer, error) =>
        StatusKeeps(s, RuntimeFailed, error);
        UpdateKeeps(s.(status := RuntimeFailed, error := error), endpoint, OUTBOUND,
                    LinkUpdate(Failed, Some(peer.certificateSki), SetError(error)));
    }
  }

  lemma ListeningKeeps(s: State, localSki: string)
    requires Consistent(s)
    ensures Consistent(Step(s, NowListening(localSki)))
  {
    hide ListenOn, Consistent;
    var t := s.(status := RuntimeListening, error := "", localSki := localSki);
    SameRegistryKeeps(s, t);
    OrderIsRegistered(s);
    ListenKeeps(t, s.order);
  }

  lemma OrderIsRegistered(s: State)
    requires Consistent(s)
    ensures forall endpoint :: endpoint in s.order ==> endpoint in s.peers
  {
    hide NormalizeSki, ReadySkis, LiveDirections, Text.SortedSet;
  }

  lemma SameRegistryKeeps(s: State, t: State)
    requires Consistent(s)
    requires t.peers == s.peers && t.links == s.links && t.order == s.order && t.activeDirections == s.activeDirections
    requires t.ready == s.ready && t.readyListing == s.readyListing
    ensures Consistent(t)
  {
    hide NormalizeSki, ReadySkis, LiveDirections, Text.SortedSet;
  }

  lemma StepKeeps(s: State, e: Event)
    requires Consistent(s) && NamesRegistered(s, e)
    ensures Consistent(Step(s, e))
  {
    match e {
      case Start(_, _, _, _, _) => StartKeeps(s, e);
      case NowListening(localSki) => ListeningKeeps(s, localSki);
      case PeerReady(_, _, _) => PeerReadyKeeps(s, e);
      case OutboundConnecting(_, _) => OutboundKeeps(s, e);
      case OutboundReady(_, _) => OutboundKeeps(s, e);
      case OutboundFailed(_, _, _) => OutboundKeeps(s, e);
      case LinkClosed(_, _, _) => ClosingKeepsOthersReady(s, e);
      case Disconnect(endpoint) => DisconnectIsExact(s, endpoint);
      case RuntimeBroke(error) => StatusKeeps(s, RuntimeFailed, error);
      case TlsConnected(_) =>
      case Stopped => FreshIsConsistent();
    }
  }

  lemma FreshIsConsistent()
    ensures Consistent(FRESH)
  {
    assert ReadySkis(FRESH.peers, FRESH.links) == {};
    assert LiveDirections(FRESH.links) == {};
  }

  lemma PeerReadyKeeps(s: State, e: Event)
    requires Consistent(s) && e.PeerReady? && NamesRegistered(s, e)
    ensures Consistent(AfterPeerReady(s, e))
    ensures AfterPeerReady(s, e).status == ShipReady
  {
    hide NormalizeSki, Text.SortedSet, Consistent, Update, MarkReadySki, EndpointFor;
    var ski := NormalizeSki(e.ski);
    MarkReadyKeeps(s, e.ski);
    NormalizeIdempotent(e.ski);
    EndpointForIsRegistered(s.order, s.peers, ski);
    var endpoint := if e.endpoint == "" && ski != "" then EndpointFor(s.order, s.peers, ski) else e.endpoint;
    var marked := MarkReadySki(s, ski).(status := ShipReady, error := "");
    StatusKeeps(MarkReadySki(s, ski), ShipReady, "");
    if endpoint != "" {
      var direction := if e.direction != "" then e.direction else INBOUND;
      UpdateKeeps(marked, endpoint, direction, LinkUpdate(Ready, Some(ski), DropError));
    }
  }

  /** The registry invariant over every run whose events name registered endpoints. */
  lemma {:induction false} RunIsConsistent(trace: seq<Event>)
    requires Registered(trace)
    ensures Consistent(Run(trace))
  {
    if trace == [] {
      FreshIsConsistent();
    } else {
      var n := |trace| - 1;
      var front := trace[..n];
      forall i | 0 <= i < n ensures NamesRegistered(Run(front[..i]), front[i]) {
        assert front[..i] == trace[..i];
        assert NamesRegistered(Run(trace[..i]), trace[i]);
      }
      RunIsConsistent(front);
      assert NamesRegistered(Run(trace[..n]), trace[n]);
      StepKeeps(Run(front), trace[n]);
    }
  }

  /** A restart drops no direction in use: after any run the directions it opens include every
      requested and every live one. */
  lemma RestartDropsNothing(trace: seq<Event>, requested: seq<string>)
    requires Registered(trace)
    ensures
      var directions := RestartDirections(Run(trace), requested);
      && (forall d :: d in requested ==> d in directions)
      && (forall d :: d in LiveDirections(Run(trace).links) ==> d in directions)
      && Text.Increasing(directions)
  {
    RunIsConsistent(trace);
  }

  // ---- Where the guarantees end ------------------------------------------------------

  /** A ready link of the endpoint that a start keeps as it is: one that is not requested, or any one
      when the running session is reused. */
  ghost predicate KeptReady(s: State, e: Event, direction: string, ski: string)
    requires e.Start?
  {
    && LinkAt(s.links, e.endpoint, direction).Some? && ReadyAs(LinkAt(s.links, e.endpoint, direction).value, ski)
    && (Reuses(s, e) || direction !in RequestedDirections(e.peer, e.choice))
  }

  /** Starting an endpoint keeps the ready set complete exactly when every SKI under which a kept link
      of it is ready is already in the set. */
  lemma StartIsSafeIff(s: State, e: Event)
    requires e.Start? && e.endpoint != ""
    requires s.readyListing == Text.SortedSet(s.ready)
    requires forall ski :: ski in s.ready ==> NormalizeSki(ski) == ski
    requires ReadySkis(s.peers, s.links) <= s.ready
    ensures
      var r := AfterStart(s, e);
      ReadySkis(r.peers, r.links) <= r.ready <==> forall d, ski :: KeptReady(s, e, d, ski) ==> ski in s.ready
  {
    hide NormalizeSki, AfterStart, RequestedDirections, Reuses, Text.SortedSet;
    StartLinks(s, e);
    var r := AfterStart(s, e);
    if ReadySkis(r.peers, r.links) <= r.ready {
      forall d, ski | KeptReady(s, e, d, ski) ensures ski in s.ready {
        assert LinkAt(r.links, e.endpoint, d) == LinkAt(s.links, e.endpoint, d);
        assert ski in ReadySkis(r.peers, r.links);
      }
    }
    if forall d, ski :: KeptReady(s, e, d, ski) ==> ski in s.ready {
      forall ski | ski in ReadySkis(r.peers, r.links) ensures ski in r.ready {
        var other, d :| other in r.peers && other in r.links && d in r.links[other] && ReadyAs(r.links[other][d], ski);
        ReadyAfterStart(s, e, other, d, ski);
      }
    }
  }

  lemma ReadyAfterStart(s: State, e: Event, other: string, d: string, ski: string)
    requires e.Start? && e.endpoint != ""
    requires s.readyListing == Text.SortedSet(s.ready)
    requires forall ready :: ready in s.ready ==> NormalizeSki(ready) == ready
    requires ReadySkis(s.peers, s.links) <= s.ready
    requires forall kept, name :: KeptReady(s, e, kept, name) ==> name in s.ready
    requires
      var r := AfterStart(s, e);
      other in r.peers && LinkAt(r.links, other, d).Some? && ReadyAs(LinkAt(r.links, other, d).value, ski)
    ensures ski in s.ready
  {
    hide NormalizeSki, AfterStart, RequestedDirections, Reuses, Text.SortedSet;
    StartLinks(s, e);
    var r := AfterStart(s, e);
    if other != e.endpoint {
      assert LinkAt(r.links, other, d) == LinkAt(s.links, other, d);
      assert ski in ReadySkis(s.peers, s.links);
    } else if LinkAt(r.links, other, d) == LinkAt(s.links, other, d) {
      if Reuses(s, e) || d !in RequestedDirections(e.peer, e.choice) {
        assert KeptReady(s, e, d, ski);
      }
    }
  }

  lemma ReadyStranger(peer: Peer)
    requires NormalizeSki(peer.certificateSki) == peer.certificateSki
    ensures
      var s := Step(FRESH, OutboundReady("x", peer));
      s.peers == map[] && LinkAt(s.links, "x", OUTBOUND) == Some(Link(Ready, peer.certificateSki, None))
  {
    hide NormalizeSki, Text.SortedSet, LiveDirections;
  }

  lemma NobodyIsReady(s: State, reason: string)
    requires s.peers == map[]
    ensures
      var r := Step(s, LinkClosed("", "", reason));
      r.peers == map[] && r.links == s.links && r.ready == {} && r.readyListing == Text.SortedSet(r.ready)
  {
    hide NormalizeSki, Text.SortedSet, LiveDirections;
    assert ReadySkis(s.peers, s.links) == {};
  }

  lemma StrangerStart(s: State, peer: Peer)
    requires s.peers == map[] && s.ready == {} && s.readyListing == Text.SortedSet(s.ready)
    requires LinkAt(s.links, "x", OUTBOUND) == Some(Link(Ready, peer.certificateSki, None))
    requires NormalizeSki(peer.certificateSki) == peer.certificateSki != ""
    ensures
      var r := Step(s, Start("x", peer, INBOUND, false, ""));
      peer.certificateSki in ReadySkis(r.peers, r.links) && peer.certificateSki !in r.ready
  {
    hide NormalizeSki, Text.SortedSet, AfterStart, Reuses;
    var e := Start("x", peer, INBOUND, false, "");
    StartLinks(s, e);
    assert OUTBOUND !in RequestedDirections(peer, INBOUND);
    var r := AfterStart(s, e);
    assert LinkAt(r.links, "x", OUTBOUND) == Some(Link(Ready, peer.certificateSki, None));
    assert ReadyAs(r.links["x"][OUTBOUND], peer.certificateSki);
  }

  /** It does happen: an outbound session to an endpoint that is not registered becomes ready, a close
      recomputes the ready set without it, and the endpoint is then registered for inbound only. */
  lemma StrangerRun(peer: Peer, reason: string)
    requires IsNormalSki(peer.certificateSki) && peer.certificateSki != ""
    ensures
      var r := Run([OutboundReady("x", peer), LinkClosed("", "", reason), Start("x", peer, INBOUND, false, "")]);
      peer.certificateSki in ReadySkis(r.peers, r.links) && peer.certificateSki !in r.ready
  {
    hide NormalizeSki, IsNormalSki, Text.SortedSet, Step, ReadySkis;
    var ready, closed, start := OutboundReady("x", peer), LinkClosed("", "", reason),
        Start("x", peer, INBOUND, false, "");
    NormalizeFixesExactlyNormal(peer.certificateSki);
    ReadyStranger(peer);
    NobodyIsReady(Step(FRESH, ready), reason);
    StrangerStart(Step(Step(FRESH, ready), closed), peer);
    RunExtends([], ready);
    RunExtends([ready], closed);
    RunExtends([ready, closed], start);
    assert [] + [ready] == [ready] && [ready] + [closed] == [ready, closed];
    assert [ready, closed] + [start] == [ready, closed, start];
  }

  lemma RunExtends(trace: seq<Event>, e: Event)
    ensures Run(trace + [e]) == Step(Run(trace), e)
  {
    hide Step;
    assert (trace + [e])[..|trace|] == trace;
  }

  predicate LiveAt(links: Links, endpoint: string, direction: string) {
    LinkAt(links, endpoint, direction).Some? && IsLive(LinkAt(links, endpoint, direction).value.status)
  }

  /** The cached directions survive a disconnect unchanged: with other endpoints left they are
      still exact afterwards exactly when no direction was live at the removed endpoint alone. */
  lemma DisconnectKeepsDirectionsExactIff(s: State, endpoint: string)
    requires forall d :: d in s.activeDirections <==> d in LiveDirections(s.links)
    requires AfterDisconnect(s, endpoint).peers != map[]
    ensures
      var r := AfterDisconnect(s, endpoint);
      && r.activeDirections == s.activeDirections
      && ((forall d :: d in r.activeDirections <==> d in LiveDirections(r.links)) <==>
          (forall d :: d in LiveDirections(s.links) ==> exists other :: other != endpoint && LiveAt(s.links, other, d)))
  {
    hide NormalizeSki, Text.SortedSet, ReadySkis;
    var r := AfterDisconnect(s, endpoint);
    assert r.links == s.links - {endpoint};
    forall d ensures d in LiveDirections(r.links) <==> exists other :: other != endpoint && LiveAt(s.links, other, d) {
      if other :| other != endpoint && LiveAt(s.links, other, d) {
        assert other in r.links && d in r.links[other];
      }
      if d in LiveDirections(r.links) {
        var other :| other in r.links && d in r.links[other] && IsLive(r.links[other][d].status);
        assert LiveAt(s.links, other, d);
      }
    }
    assert forall d, other :: LiveAt(s.links, other, d) ==> d in LiveDirections(s.links);
  }

  /** It does happen: one endpoint is started inbound, another one outbound and then disconnected; the
      outbound direction stays in the cache although no link is live in it. */
  lemma StaleDirectionRun(peer: Peer)
    ensures
      var r := Run([Start("x", peer, INBOUND, false, ""), Start("y", peer, OUTBOUND, false, ""), Disconnect("y")]);
      OUTBOUND in r.activeDirections && OUTBOUND !in LiveDirections(r.links)
  {
    hide NormalizeSki, Text.SortedSet, Step, Run, Consistent, AfterStart, AfterDisconnect, LiveDirections;
    var x, y, gone := Start("x", peer, INBOUND, false, ""), Start("y", peer, OUTBOUND, false, ""), Disconnect("y");
    RunExtends([], x);
    RunExtends([x], y);
    RunExtends([x, y], gone);
    assert [] + [x] == [x] && [x] + [y] == [x, y] && [x, y] + [gone] == [x, y, gone];
    RunOfNothing();
    StepsSpelledOut(FRESH);
    StepsSpelledOut(AfterStart(FRESH, x));
    StepsSpelledOut(AfterStart(AfterStart(FRESH, x), y));
    TwoStarts(peer);
    StaleAfterDisconnect(AfterStart(AfterStart(FRESH, x), y));
  }

  lemma RunOfNothing()
    ensures Run([]) == FRESH
  {
  }

  /** The outbound direction is live at the second endpoint only, and the first one is registered. */
  ghost predicate OnlyYOutbound(s: State) {
    && Consistent(s) && "x" in s.peers && LiveAt(s.links, "y", OUTBOUND)
    && forall other :: other != "y" ==> LinkAt(s.links, other, OUTBOUND) == None
  }

  lemma TwoStarts(peer: Peer)
    ensures
      var s := AfterStart(FRESH, Start("x", peer, INBOUND, false, ""));
      OnlyYOutbound(AfterStart(s, Start("y", peer, OUTBOUND, false, "")))
  {
    hide NormalizeSki, Text.SortedSet, Consistent, AfterStart;
    var x, y := Start("x", peer, INBOUND, false, ""), Start("y", peer, OUTBOUND, false, "");
    FreshIsConsistent();
    StartKeeps(FRESH, x);
    StartKeeps(AfterStart(FRESH, x), y);
    assert OUTBOUND in RequestedDirections(peer, OUTBOUND) && OUTBOUND !in RequestedDirections(peer, INBOUND);
  }

  lemma LiveSomewhere(links: Links, direction: string)
    ensures direction in LiveDirections(links) <==> exists endpoint :: LiveAt(links, endpoint, direction)
  {
    if direction in LiveDirections(links) {
      var endpoint :| endpoint in links && direction in links[endpoint] && IsLive(links[endpoint][direction].status);
      assert LiveAt(links, endpoint, direction);
    }
  }

  lemma StaleAfterDisconnect(s: State)
    requires OnlyYOutbound(s)
    ensures
      var r := AfterDisconnect(s, "y");
      OUTBOUND in r.activeDirections && OUTBOUND !in LiveDirections(r.links)
  {
    hide NormalizeSki, Text.SortedSet, ReadySkis, LiveDirections;
    var r := AfterDisconnect(s, "y");
    assert "x" in r.peers;
    LiveSomewhere(s.links, OUTBOUND);
    assert r.links == s.links - {"y"};
    forall other ensures !LiveAt(r.links, other, OUTBOUND) {
      if other != "y" { assert LinkAt(r.links, other, OUTBOUND) == LinkAt(s.links, other, OUTBOUND); }
    }
    LiveSomewhere(r.links, OUTBOUND);
  }
}
