/**
 Coordinator election in a mesh of nodes. Every node folds over its own peer list in its own order;
 the claim is agreement across nodes, over any run of discoveries, expiries and elections.
 */
module Election {

  type uint32 = n: nat | n < 0x1_0000_0000

  /** `lastSeen` is in nanoseconds of the node's own monotone clock. */
  datatype PeerInfo = PeerInfo(hostname: string, ip: string, rpcPort: nat, ramMb: uint32, cpuCores: uint32,
                               model: string, lastSeen: int)

  datatype ClusterState = Standalone | Discovering | Coordinator | Worker

  // ---------- The order on candidates ----------

  function ToInt32(n: int): int
  {
    var m := n % 0x1_0000_0000;
    if m < 0x8000_0000 then m else m - 0x1_0000_0000
  }

  function ElectionScore(p: PeerInfo): int
  {
    ToInt32(ToInt32(p.ramMb / 1024) * 10 + ToInt32(p.cpuCores))
  }

  /** std::string's order. */
  predicate Less(a: string, b: string)
  {
    b != [] && (a == [] || a[0] < b[0] || (a[0] == b[0] && Less(a[1..], b[1..])))
  }

  /** Ten points for each whole GiB and one for each core; beyond the largest int it wraps around. */
  lemma ScoreIs(p: PeerInfo)
    ensures var sum := 10 * (p.ramMb / 1024) + p.cpuCores;
      ElectionScore(p) == if sum < 0x8000_0000 then sum else sum - 0x1_0000_0000
  {
    hide ToInt32;
    Int32Is(p.ramMb / 1024, 0);
    Int32Is(p.cpuCores, 0);
    var sum := 10 * (p.ramMb / 1024) + p.cpuCores;
    Int32Is(sum, if p.cpuCores < 0x8000_0000 then 0 else 1);
  }

  /** Numbers up to 2^32 and a half, also after a wrap before. */
  lemma Int32Is(n: int, wraps: nat)
    requires 0 <= n < 0x1_8000_0000 && wraps <= 1
    ensures ToInt32(n - wraps * 0x1_0000_0000) == if n < 0x8000_0000 then n else n - 0x1_0000_0000
  {
  }

  /** At the first place where they differ the smaller character, or no character at all. */
  predicate FirstDifference(a: string, b: string, k: nat)
  {
    k <= |a| && k < |b| && a[..k] == b[..k] && (k == |a| || a[k] < b[k])
  }

  lemma {:induction false} LessIs(a: string, b: string)
    ensures Less(a, b) <==> exists k: nat :: FirstDifference(a, b, k)
  {
    if a != [] && b != [] && a[0] == b[0] {
      LessIs(a[1..], b[1..]);
      if Less(a[1..], b[1..]) {
        var k: nat :| FirstDifference(a[1..], b[1..], k);
        assert a[..k + 1] == [a[0]] + a[1..][..k] && b[..k + 1] == [b[0]] + b[1..][..k];
        assert FirstDifference(a, b, k + 1);
      }
      if k: nat :| FirstDifference(a, b, k) {
        assert k > 0;
        assert a[1..][..k - 1] == a[..k][1..] && b[1..][..k - 1] == b[..k][1..];
        assert FirstDifference(a[1..], b[1..], k - 1);
      }
    } else {
      if Less(a, b) {
        assert FirstDifference(a, b, 0);
      }
      if k: nat :| FirstDifference(a, b, k) {
        assert k > 0 ==> a[..k][0] == b[..k][0];
      }
    }
  }

  predicate Better(p: PeerInfo, q: PeerInfo)
  {
    ElectionScore(p) > ElectionScore(q) || (ElectionScore(p) == ElectionScore(q) && Less(p.ip, q.ip))
  }

  lemma {:induction false} LessTotal(a: string, b: string)
    ensures a == b ==> !Less(a, b)
    ensures a != b ==> (Less(a, b) <==> !Less(b, a))
  {
    if a != [] && b != [] {
      LessTotal(a[1..], b[1..]);
      assert a == [a[0]] + a[1..] && b == [b[0]] + b[1..];
    }
  }

  lemma {:induction false} LessTransitive(a: string, b: string, c: string)
    requires Less(a, b) && Less(b, c)
    ensures Less(a, c)
  {
    if a != [] && a[0] == b[0] == c[0] {
      LessTransitive(a[1..], b[1..], c[1..]);
    }
  }

  lemma BetterTotal(p: PeerInfo, q: PeerInfo)
    ensures p.ip != q.ip ==> (Better(p, q) <==> !Better(q, p))
    ensures p.ip == q.ip && ElectionScore(p) == ElectionScore(q) ==> !Better(p, q)
  {
    LessTotal(p.ip, q.ip);
  }

  lemma BetterTransitive(p: PeerInfo, q: PeerInfo, r: PeerInfo)
    requires Better(p, q) && Better(q, r)
    ensures Better(p, r)
  {
    if ElectionScore(p) == ElectionScore(r) {
      LessTransitive(p.ip, q.ip, r.ip);
    }
  }

  // ---------- One election ----------

  function Winner(best: PeerInfo, peers: seq<PeerInfo>): PeerInfo
    decreases |peers|
  {
    if peers == [] then best else Winner(if Better(peers[0], best) then peers[0] else best, peers[1..])
  }

  method ElectCoordinator(self: PeerInfo, peers: seq<PeerInfo>) returns (best: PeerInfo)
    ensures best == Winner(self, peers)
  {
    best := self;
    var bestScore := ElectionScore(self);
    var i := 0;
    while i < |peers|
      invariant i <= |peers| && bestScore == ElectionScore(best)
      invariant Winner(self, peers) == Winner(best, peers[i..])
    {
      var s := ElectionScore(peers[i]);
      assert peers[i..][1..] == peers[i + 1..];
      if s > bestScore || (s == bestScore && Less(peers[i].ip, best.ip)) {
        best := peers[i];
        bestScore := s;
      }
      i := i + 1;
    }
  }

  predicate Candidate(p: PeerInfo, self: PeerInfo, peers: seq<PeerInfo>)
  {
    p == self || p in peers
  }

  /** The winner is one of the candidates, and none of them is better. */
  lemma {:induction false} WinnerUnbeaten(self: PeerInfo, peers: seq<PeerInfo>)
    ensures Candidate(Winner(self, peers), self, peers)
    ensures forall q | Candidate(q, self, peers) :: !Better(q, Winner(self, peers))
    decreases |peers|
  {
    if peers == [] {
      BetterTotal(self, self);
    } else {
      var first := peers[0];
      var best := if Better(first, self) then first else self;
      WinnerUnbeaten(best, peers[1..]);
      var w := Winner(self, peers);
      assert peers == [first] + peers[1..];
      forall q | Candidate(q, self, peers) ensures !Better(q, w) {
        if q == self || q == first {
          BetterTotal(first, self);
          BetterTotal(q, q);
          BetterAny(best, w, q);
        }
      }
    }
  }

  /** Of two candidates the one kept is unbeaten by what does not beat the winner. */
  lemma BetterAny(best: PeerInfo, w: PeerInfo, other: PeerInfo)
    requires !Better(best, w) && !Better(other, best)
    ensures !Better(other, w)
  {
    LessTotal(best.ip, w.ip);
    LessTotal(other.ip, best.ip);
    LessTotal(other.ip, w.ip);
    if Better(other, w) && other.ip != best.ip && best.ip != w.ip {
      assert Better(best, other) && Better(w, best);
      BetterTransitive(w, best, other);
      BetterTotal(w, other);
    }
  }

  predicate DistinctIps(self: PeerInfo, peers: seq<PeerInfo>)
  {
    && (forall i | 0 <= i < |peers| :: peers[i].ip != self.ip)
    && (forall i, j | 0 <= i < j < |peers| :: peers[i].ip != peers[j].ip)
  }

  /** The winner does not depend on the order of the list, nor on who is the one that asks. */
  lemma OrderIrrelevant(self: PeerInfo, peers: seq<PeerInfo>, self': PeerInfo, peers': seq<PeerInfo>)
    requires forall p :: Candidate(p, self, peers) <==> Candidate(p, self', peers')
    requires DistinctIps(self, peers)
    ensures Winner(self, peers) == Winner(self', peers')
  {
    WinnerUnbeaten(self, peers);
    WinnerUnbeaten(self', peers');
    var v, w := Winner(self, peers), Winner(self', peers');
    assert Candidate(v, self', peers') && Candidate(w, self, peers);
    if v != w {
      assert v.ip != w.ip;
      BetterTotal(v, w);
    }
  }

  // ---------- One node ----------

  datatype Node = Node(self: PeerInfo, peers: seq<PeerInfo>, state: ClusterState, coordinator: PeerInfo)

  predicate SamePeer(p: PeerInfo, q: PeerInfo)
  {
    p.ip == q.ip && p.rpcPort == q.rpcPort
  }

  /** Replaces the first record of that peer, or appends one. */
  function AddTo(peers: seq<PeerInfo>, peer: PeerInfo): seq<PeerInfo>
  {
    if peers == [] then [peer]
    else if SamePeer(peers[0], peer) then [peer] + peers[1..]
    else [peers[0]] + AddTo(peers[1..], peer)
  }

  predicate Recent(p: PeerInfo, timeout: int, now: int)
  {
    Seconds(now - p.lastSeen) < timeout
  }

  /** duration_cast to whole seconds, which truncates toward zero. */
  function Seconds(ns: int): int
  {
    if ns >= 0 then ns / 1_000_000_000 else -(-ns / 1_000_000_000)
  }

  function KeepRecent(peers: seq<PeerInfo>, timeout: int, now: int): seq<PeerInfo>
  {
    if peers == [] then []
    else (if Recent(peers[0], timeout, now) then [peers[0]] else []) + KeepRecent(peers[1..], timeout, now)
  }

  /** Less than that many whole seconds ago. */
  lemma RecentIs(p: PeerInfo, timeout: int, now: int)
    ensures timeout > 0 ==> (Recent(p, timeout, now) <==> now - p.lastSeen < timeout * 1_000_000_000)
    ensures timeout <= 0 ==> (Recent(p, timeout, now) <==> now - p.lastSeen <= (timeout - 1) * 1_000_000_000)
  {
  }

  /** A new peer goes to the end, a known one to the place of its first record. */
  lemma {:induction false} AddToIs(peers: seq<PeerInfo>, peer: PeerInfo, i: nat)
    requires i <= |peers| && forall k | 0 <= k < i :: !(peers[k].ip == peer.ip && peers[k].rpcPort == peer.rpcPort)
    requires i < |peers| ==> peers[i].ip == peer.ip && peers[i].rpcPort == peer.rpcPort
    ensures AddTo(peers, peer) == if i < |peers| then peers[i := peer] else peers + [peer]
    decreases |peers|
  {
    if i == 0 {
      assert peers != [] ==> peers[0 := peer] == [peer] + peers[1..];
    } else {
      assert forall k | 0 <= k < i - 1 :: peers[1..][k] == peers[k + 1];
      AddToIs(peers[1..], peer, i - 1);
      UpdateRest(peers, peer, i);
    }
  }

  lemma UpdateRest(peers: seq<PeerInfo>, peer: PeerInfo, i: nat)
    requires 0 < i <= |peers|
    ensures i < |peers| ==> peers[i := peer] == [peers[0]] + peers[1..][i - 1 := peer]
    ensures peers + [peer] == [peers[0]] + (peers[1..] + [peer])
  {
  }

  /** All recent records are kept, in order, and no other. */
  lemma {:induction false} KeepRecentIs(peers: seq<PeerInfo>, p: PeerInfo, timeout: int, now: int)
    ensures KeepRecent([], timeout, now) == []
    ensures KeepRecent(peers + [p], timeout, now)
         == KeepRecent(peers, timeout, now) + if Recent(p, timeout, now) then [p] else []
    decreases |peers|
  {
    hide Recent;
    if peers == [] {
      assert peers + [p] == [p] && [p][1..] == [];
    } else {
      KeepRecentIs(peers[1..], p, timeout, now);
      assert (peers + [p])[1..] == peers[1..] + [p];
    }
  }

  lemma AddToNext(peers: seq<PeerInfo>, i: nat, p: PeerInfo)
    requires i < |peers|
    ensures AddTo(peers[i..], p)
         == if SamePeer(peers[i], p) then [p] + peers[i + 1..] else [peers[i]] + AddTo(peers[i + 1..], p)
  {
    hide SamePeer;
    var rest := peers[i..];
    assert rest[0] == peers[i] && rest[1..] == peers[i + 1..];
  }

  lemma AddToEmpty(p: PeerInfo)
    ensures AddTo([], p) == [p]
  {
  }

  lemma Split(peers: seq<PeerInfo>, i: nat, p: PeerInfo)
    requires i < |peers|
    ensures peers[..i + 1] == peers[..i] + [peers[i]]
    ensures peers[i := p] == peers[..i] + ([p] + peers[i + 1..])
  {
  }

  lemma KeepRecentBegins(peers: seq<PeerInfo>, timeout: int, now: int)
    ensures KeepRecent(peers, timeout, now) == [] + KeepRecent(peers[0..], timeout, now) && peers[..0] == []
  {
    assert peers[0..] == peers;
  }

  lemma KeepRecentNext(peers: seq<PeerInfo>, i: nat, kept: seq<PeerInfo>, timeout: int, now: int)
    requires i < |peers|
    ensures var rest := KeepRecent(peers[i + 1..], timeout, now);
      kept + KeepRecent(peers[i..], timeout, now)
      == if Recent(peers[i], timeout, now) then (kept + [peers[i]]) + rest else kept + rest
    ensures peers[..i + 1] == peers[..i] + [peers[i]]
  {
    hide Recent;
    assert peers[i..][1..] == peers[i + 1..];
  }

  lemma KeepRecentEnds(peers: seq<PeerInfo>, kept: seq<PeerInfo>, timeout: int, now: int)
    ensures kept + KeepRecent(peers[|peers|..], timeout, now) == kept && peers[..|peers|] == peers
  {
    assert peers[|peers|..] == [];
  }

  function Elected(n: Node): Node
  {
    var winner := Winner(n.self, n.peers);
    n.(coordinator := winner,
       state := if n.peers == [] then Standalone else if winner.ip == n.self.ip then Coordinator else Worker)
  }

  class ClusterManager {
    var self: PeerInfo
    var peers: seq<PeerInfo>
    var state: ClusterState
    var coordinator: PeerInfo
    const hasCallback: bool
    var notified: nat  // how often the topology callback was called

    ghost function View(): Node
      reads this
    {
      Node(self, peers, state, coordinator)
    }

    constructor (self: PeerInfo, hasCallback: bool)
      ensures View() == Node(self, [], Standalone, self) && notified == 0 && this.hasCallback == hasCallback
    {
      this.self, this.hasCallback := self, hasCallback;
      peers, state, coordinator, notified := [], Standalone, self, 0;
    }

    method AddPeer(peer: PeerInfo, now: int)
      modifies this`peers
      ensures peer.(lastSeen := now) in peers
      ensures View() == old(View()).(peers := AddTo(old(peers), peer.(lastSeen := now)))
    {
      hide AddTo;
      var p := peer.(lastSeen := now);
      var i := 0;
      while i < |peers|
        invariant i <= |peers| && peers == old(peers)
        invariant AddTo(peers, p) == peers[..i] + AddTo(peers[i..], p)
      {
        AddToNext(peers, i, p);
        Split(peers, i, p);
        if peers[i].ip == peer.ip && peers[i].rpcPort == peer.rpcPort {
          peers := peers[i := p];
          return;
        }
        i := i + 1;
      }
      assert peers[..i] == peers && peers[i..] == [];
      AddToEmpty(p);
      peers := peers + [p];
    }

    method ExpirePeers(timeoutSeconds: int, now: int)
      modifies this`peers, this`notified
      ensures View() == old(View()).(peers := KeepRecent(old(peers), timeoutSeconds, now))
      ensures notified == old(notified) + if hasCallback && peers != old(peers) then 1 else 0
    {
      hide Recent;
      hide KeepRecent;
      var kept: seq<PeerInfo>, changed := [], false;
      var i := 0;
      KeepRecentBegins(peers, timeoutSeconds, now);
      while i < |peers|
        invariant peers == old(peers) && notified == old(notified)
        invariant i <= |peers| && (if changed then |kept| < i else kept == peers[..i])
        invariant KeepRecent(peers, timeoutSeconds, now) == kept + KeepRecent(peers[i..], timeoutSeconds, now)
      {
        KeepRecentNext(peers, i, kept, timeoutSeconds, now);
        if Recent(peers[i], timeoutSeconds, now) {
          kept := kept + [peers[i]];
        } else {
          changed := true;
        }
        i := i + 1;
      }
      KeepRecentEnds(peers, kept, timeoutSeconds, now);
      peers := kept;
      if changed && hasCallback {
        notified := notified + 1;
      }
    }

    method RunElection()
      modifies this
      ensures self == old(self) && peers == old(peers) && Candidate(coordinator, self, peers)
      ensures forall q | Candidate(q, self, peers) :: !Better(q, coordinator)
      ensures state == if peers == [] then Standalone else if coordinator.ip == self.ip then Coordinator else Worker
      ensures View() == Elected(old(View()))
      ensures notified == old(notified) + if hasCallback && state != old(state) then 1 else 0
    {
      hide Better;
      var winner := ElectCoordinator(self, peers);
      WinnerUnbeaten(self, peers);
      coordinator := winner;
      var oldState := state;
      if peers == [] {
        state := Standalone;
      } else if winner.ip == self.ip {
        state := Coordinator;
      } else {
        state := Worker;
      }
      if state != oldState && hasCallback {
        notified := notified + 1;
      }
    }
  }

  // ---------- All the nodes ----------

  /** `polled[i]` is whom node i knew when it last held an election, nobody before the first. */
  datatype Cluster = Cluster(nodes: seq<Node>, polled: seq<set<nat>>)

  datatype Event =
    | Discover(i: nat, j: nat, hostname: string, model: string, now: int)
    | Expire(i: nat, timeout: int, now: int)
    | Elect(i: nat)

  /** Distinct addresses: no two nodes can be taken for each other. */
  predicate Distinct(nodes: seq<Node>)
  {
    forall i, j | 0 <= i < j < |nodes| :: nodes[i].self.ip != nodes[j].self.ip
  }

  predicate Initial(c: Cluster)
  {
    && |c.polled| == |c.nodes| && Distinct(c.nodes)
    && forall i | 0 <= i < |c.nodes| :: c.nodes[i].peers == [] && c.nodes[i].state == Standalone && c.polled[i] == {}
  }

  predicate HasIp(peers: seq<PeerInfo>, ip: string)
  {
    exists k | 0 <= k < |peers| :: peers[k].ip == ip
  }

  /** The nodes that node i has a record of. */
  function Known(nodes: seq<Node>, i: nat): set<nat>
    requires i < |nodes|
  {
    set j: nat | j < |nodes| && HasIp(nodes[i].peers, nodes[j].self.ip)
  }

  predicate Enabled(c: Cluster, e: Event)
  {
    match e
    case Discover(i, j, _, _, _) => i < |c.nodes| && j < |c.nodes| && i != j
    case Expire(i, _, _) => i < |c.nodes|
    case Elect(i) => i < |c.nodes|
  }

  function Step(c: Cluster, e: Event): Cluster
    requires |c.polled| == |c.nodes| && Enabled(c, e)
  {
    match e
    case Discover(i, j, hostname, model, now) =>
      var advertised := c.nodes[j].self.(hostname := hostname, model := model, lastSeen := now);
      c.(nodes := c.nodes[i := c.nodes[i].(peers := AddTo(c.nodes[i].peers, advertised))])
    case Expire(i, timeout, now) =>
      c.(nodes := c.nodes[i := c.nodes[i].(peers := KeepRecent(c.nodes[i].peers, timeout, now))])
    case Elect(i) =>
      Cluster(c.nodes[i := Elected(c.nodes[i])], c.polled[i := Known(c.nodes, i)])
  }

  predicate IsRun(c: Cluster, es: seq<Event>)
    requires |c.polled| == |c.nodes|
    decreases |es|
  {
    es == [] || (Enabled(c, es[0]) && IsRun(Step(c, es[0]), es[1..]))
  }

  function After(c: Cluster, es: seq<Event>): Cluster
    requires |c.polled| == |c.nodes| && IsRun(c, es)
    decreases |es|
  {
    if es == [] then c else After(Step(c, es[0]), es[1..])
  }

  /** A record describes that node: the fields that decide elections are its own. */
  predicate Describes(p: PeerInfo, self: PeerInfo)
  {
    p.ip == self.ip && p.rpcPort == self.rpcPort && p.ramMb == self.ramMb && p.cpuCores == self.cpuCores
  }

  predicate Truthful(nodes: seq<Node>, i: nat, p: PeerInfo)
  {
    exists j: nat :: j < |nodes| && j != i && Describes(p, nodes[j].self)
  }

  predicate Records(nodes: seq<Node>)
  {
    forall i: nat, k: nat | i < |nodes| && k < |nodes[i].peers| :: Truthful(nodes, i, nodes[i].peers[k])
  }

  /** Node b is better than every other member of the group. */
  predicate Leads(nodes: seq<Node>, b: nat, group: set<nat>)
    requires b < |nodes|
  {
    forall j | j in group && j < |nodes| && j != b :: Better(nodes[b].self, nodes[j].self)
  }

  /** What the last election of node i has left behind. */
  predicate Outcome(c: Cluster, i: nat)
    requires i < |c.nodes| == |c.polled|
  {
    if c.polled[i] == {} then c.nodes[i].state == Standalone
    else exists b: nat :: b < |c.nodes| && Follows(c.nodes, i, c.polled[i], b)
  }

  /** Node i takes node b, the leader of itself and those it polled, for the coordinator. */
  predicate Follows(nodes: seq<Node>, i: nat, polled: set<nat>, b: nat)
    requires i < |nodes| && b < |nodes|
  {
    && (b == i || b in polled)
    && Leads(nodes, b, polled + {i})
    && nodes[i].coordinator.ip == nodes[b].self.ip
    && nodes[i].state == if b == i then Coordinator else Worker
  }

  predicate Inv(c: Cluster)
  {
    && |c.polled| == |c.nodes| && Distinct(c.nodes) && Records(c.nodes)
    && forall i: nat | i < |c.nodes| :: i !in c.polled[i] && Outcome(c, i)
  }

  // ---------- Every reachable cluster ----------

  lemma {:induction false} AddToRecords(peers: seq<PeerInfo>, peer: PeerInfo)
    ensures forall p | p in AddTo(peers, peer) :: p in peers || p == peer
  {
    if peers != [] {
      AddToRecords(peers[1..], peer);
    }
  }

  lemma {:induction false} KeepRecentRecords(peers: seq<PeerInfo>, timeout: int, now: int)
    ensures forall p | p in KeepRecent(peers, timeout, now) :: p in peers
  {
    hide Recent;
    if peers != [] {
      KeepRecentRecords(peers[1..], timeout, now);
    }
  }

  predicate SameSelves(nodes: seq<Node>, nodes': seq<Node>)
  {
    |nodes| == |nodes'| && forall k | 0 <= k < |nodes| :: nodes'[k].self == nodes[k].self
  }

  lemma TruthfulFrame(nodes: seq<Node>, nodes': seq<Node>, i: nat, p: PeerInfo)
    requires SameSelves(nodes, nodes') && Truthful(nodes, i, p)
    ensures Truthful(nodes', i, p)
  {
    var j: nat :| j < |nodes| && j != i && Describes(p, nodes[j].self);
    assert Describes(p, nodes'[j].self);
  }

  lemma OutcomeFrame(c: Cluster, c': Cluster, i: nat)
    requires i < |c.nodes| == |c.polled| == |c'.polled| && SameSelves(c.nodes, c'.nodes) && Outcome(c, i)
    requires c'.polled[i] == c.polled[i] && c'.nodes[i].state == c.nodes[i].state
    requires c'.nodes[i].coordinator == c.nodes[i].coordinator
    ensures Outcome(c', i)
  {
    hide Better;
    if c.polled[i] != {} {
      var b: nat :| b < |c.nodes| && Follows(c.nodes, i, c.polled[i], b);
      assert Follows(c'.nodes, i, c'.polled[i], b);
    }
  }

  /** Changing one node's records for other truthful ones keeps the invariant. */
  lemma PeersStep(c: Cluster, i: nat, peers: seq<PeerInfo>)
    requires Inv(c) && i < |c.nodes|
    requires forall p | p in peers :: Truthful(c.nodes, i, p)
    ensures Inv(c.(nodes := c.nodes[i := c.nodes[i].(peers := peers)]))
  {
    hide Outcome;
    hide Truthful;
    var c' := c.(nodes := c.nodes[i := c.nodes[i].(peers := peers)]);
    forall k: nat, m: nat | k < |c.nodes| && m < |c'.nodes[k].peers|
      ensures Truthful(c'.nodes, k, c'.nodes[k].peers[m])
    {
      TruthfulFrame(c.nodes, c'.nodes, k, c'.nodes[k].peers[m]);
    }
    forall k: nat | k < |c.nodes| ensures Outcome(c', k) {
      OutcomeFrame(c, c', k);
    }
  }

  /** The winner of an election among truthful records is the leader of the nodes they describe. */
  lemma ElectionLeads(nodes: seq<Node>, i: nat)
    requires i < |nodes| && Distinct(nodes) && Records(nodes)
    ensures i !in Known(nodes, i)
    ensures nodes[i].peers == [] <==> Known(nodes, i) == {}
    ensures exists b: nat ::
      && b < |nodes| && (b == i || b in Known(nodes, i)) && Leads(nodes, b, Known(nodes, i) + {i})
      && Winner(nodes[i].self, nodes[i].peers).ip == nodes[b].self.ip
  {
    hide Better;
    var self, peers := nodes[i].self, nodes[i].peers;
    var w := Winner(self, peers);
    WinnerUnbeaten(self, peers);
    forall k: nat | k < |peers|
      ensures exists j: nat :: j < |nodes| && j != i && j in Known(nodes, i) && Describes(peers[k], nodes[j].self)
    {
      assert Truthful(nodes, i, peers[k]);
      var j: nat :| j < |nodes| && j != i && Describes(peers[k], nodes[j].self);
      assert HasIp(peers, nodes[j].self.ip);
    }
    forall k: nat | k < |peers| ensures peers[k].ip != self.ip {
      assert Truthful(nodes, i, peers[k]);
    }
    var b: nat;
    if w == self {
      b := i;
    } else {
      var k :| 0 <= k < |peers| && peers[k] == w;
      b :| b < |nodes| && b != i && b in Known(nodes, i) && Describes(peers[k], nodes[b].self);
    }
    forall j | j in Known(nodes, i) + {i} && j < |nodes| && j != b ensures Better(nodes[b].self, nodes[j].self) {
      MemberBeaten(nodes, i, b, j);
    }
  }

  lemma SameStanding(p: PeerInfo, p': PeerInfo, q: PeerInfo, q': PeerInfo)
    requires p.ip == p'.ip && p.ramMb == p'.ramMb && p.cpuCores == p'.cpuCores
    requires q.ip == q'.ip && q.ramMb == q'.ramMb && q.cpuCores == q'.cpuCores
    ensures Better(p, q) == Better(p', q')
  {
  }

  lemma MemberBeaten(nodes: seq<Node>, i: nat, b: nat, j: nat)
    requires i < |nodes| && b < |nodes| && j < |nodes| && j != b && Distinct(nodes) && Records(nodes)
    requires j == i || j in Known(nodes, i)
    requires var w := Winner(nodes[i].self, nodes[i].peers);
      w.ip == nodes[b].self.ip && w.ramMb == nodes[b].self.ramMb && w.cpuCores == nodes[b].self.cpuCores
    ensures Better(nodes[b].self, nodes[j].self)
  {
    hide Better;
    var self, peers := nodes[i].self, nodes[i].peers;
    var w := Winner(self, peers);
    WinnerUnbeaten(self, peers);
    var q := self;
    if j != i {
      var k :| 0 <= k < |peers| && peers[k].ip == nodes[j].self.ip;
      q := peers[k];
      assert Truthful(nodes, i, q);
      var m: nat :| m < |nodes| && m != i && Describes(q, nodes[m].self);
      assert m == j;
    }
    assert Candidate(q, self, peers);
    BetterTotal(w, q);
    SameStanding(w, nodes[b].self, q, nodes[j].self);
  }

  lemma ElectStep(c: Cluster, i: nat)
    requires Inv(c) && i < |c.nodes|
    ensures Inv(Step(c, Elect(i)))
  {
    hide Better;
    hide Truthful;
    hide Winner;
    hide Known;
    var c' := Step(c, Elect(i));
    ElectionLeads(c.nodes, i);
    forall k: nat, m: nat | k < |c.nodes| && m < |c'.nodes[k].peers|
      ensures Truthful(c'.nodes, k, c'.nodes[k].peers[m])
    {
      TruthfulFrame(c.nodes, c'.nodes, k, c.nodes[k].peers[m]);
    }
    forall k: nat | k < |c.nodes| ensures Outcome(c', k) {
      if k == i {
        ElectOutcome(c, i);
      } else {
        OutcomeFrame(c, c', k);
      }
    }
  }

  lemma ElectOutcome(c: Cluster, i: nat)
    requires i < |c.nodes| == |c.polled| && Distinct(c.nodes) && Records(c.nodes)
    ensures Outcome(Step(c, Elect(i)), i)
  {
    hide Better;
    hide Records;
    hide Winner;
    hide Known;
    ElectionLeads(c.nodes, i);
    var c' := Step(c, Elect(i));
    var b: nat :| b < |c.nodes| && (b == i || b in Known(c.nodes, i)) && Leads(c.nodes, b, Known(c.nodes, i) + {i})
      && Winner(c.nodes[i].self, c.nodes[i].peers).ip == c.nodes[b].self.ip;
    assert Leads(c'.nodes, b, c'.polled[i] + {i});
    assert b != i ==> c.nodes[b].self.ip != c.nodes[i].self.ip;
    if c'.polled[i] != {} {
      assert Follows(c'.nodes, i, c'.polled[i], b);
    }
  }

  lemma InvStep(c: Cluster, e: Event)
    requires Inv(c) && Enabled(c, e)
    ensures Inv(Step(c, e)) && |Step(c, e).nodes| == |c.nodes|
  {
    hide Outcome;
    match e {
      case Discover(i, j, hostname, model, now) =>
        var advertised := c.nodes[j].self.(hostname := hostname, model := model, lastSeen := now);
        AddToRecords(c.nodes[i].peers, advertised);
        assert Describes(advertised, c.nodes[j].self);
        forall p | p in AddTo(c.nodes[i].peers, advertised) ensures Truthful(c.nodes, i, p) {
        }
        PeersStep(c, i, AddTo(c.nodes[i].peers, advertised));
      case Expire(i, timeout, now) =>
        KeepRecentRecords(c.nodes[i].peers, timeout, now);
        PeersStep(c, i, KeepRecent(c.nodes[i].peers, timeout, now));
      case Elect(i) =>
        ElectStep(c, i);
    }
  }

  lemma {:induction false} InvHolds(c: Cluster, es: seq<Event>)
    requires Inv(c) && IsRun(c, es)
    ensures Inv(After(c, es)) && |After(c, es).nodes| == |c.nodes|
    decreases |es|
  {
    hide Inv;
    hide Enabled;
    InvSizes(c);
    if es != [] {
      InvStep(c, es[0]);
      InvHolds(Step(c, es[0]), es[1..]);
    }
  }

  lemma InvSizes(c: Cluster)
    requires Inv(c)
    ensures |c.polled| == |c.nodes|
  {
  }

  lemma InitialInv(c: Cluster)
    requires Initial(c)
    ensures Inv(c)
  {
  }

  predicate KnewEveryone(c: Cluster, i: nat)
    requires i < |c.nodes| == |c.polled|
  {
    forall j: nat | j < |c.nodes| && j != i :: j in c.polled[i]
  }

  /**
   In every run, once each node's last election saw all the others, in whatever order it met them
   and whatever it has learnt or forgotten since, exactly one node is the coordinator and all
   others are workers that name it.
   */
  lemma Agreement(c: Cluster, es: seq<Event>)
    requires Initial(c) && IsRun(c, es) && |c.nodes| >= 2
    requires var d := After(c, es);
      |d.nodes| == |d.polled| && forall i: nat | i < |d.nodes| :: KnewEveryone(d, i)
    ensures var d := After(c, es);
      exists b: nat :: b < |d.nodes| && forall i: nat | i < |d.nodes| ::
        d.nodes[i].state == (if i == b then Coordinator else Worker) && d.nodes[i].coordinator.ip == d.nodes[b].self.ip
  {
    hide Better;
    InitialInv(c);
    InvHolds(c, es);
    var d := After(c, es);
    assert KnewEveryone(d, 0) && 1 in d.polled[0];
    assert Outcome(d, 0);
    var b: nat :| b < |d.nodes| && Follows(d.nodes, 0, d.polled[0], b);
    forall i: nat | i < |d.nodes|
      ensures d.nodes[i].state == (if i == b then Coordinator else Worker)
      ensures d.nodes[i].coordinator.ip == d.nodes[b].self.ip
    {
      assert KnewEveryone(d, i) && Outcome(d, i);
      assert (if i == 0 then 1 else 0) in d.polled[i];
      var b': nat :| b' < |d.nodes| && Follows(d.nodes, i, d.polled[i], b');
      if b' != b {
        assert b' in d.polled[0] + {0} by { assert KnewEveryone(d, 0); }
        assert b in d.polled[i] + {i};
        BetterTotal(d.nodes[b].self, d.nodes[b'].self);
      }
    }
  }

  /**
   Without that, what a node takes itself for follows from whom it last polled alone: it is the
   coordinator if and only if it polled somebody and is better than everybody it polled.
   */
  lemma CoordinatorExactlyIf(c: Cluster, es: seq<Event>, i: nat)
    requires Initial(c) && IsRun(c, es) && i < |c.nodes|
    ensures var d := After(c, es);
      && i < |d.nodes| == |d.polled|
      && (d.nodes[i].state == Coordinator <==> d.polled[i] != {} && Leads(d.nodes, i, d.polled[i]))
  {
    hide Better;
    InitialInv(c);
    InvHolds(c, es);
    var d := After(c, es);
    assert Outcome(d, i);
    if d.polled[i] != {} {
      var b: nat :| b < |d.nodes| && Follows(d.nodes, i, d.polled[i], b);
      if b != i {
        BetterTotal(d.nodes[b].self, d.nodes[i].self);
        assert d.nodes[b].self.ip != d.nodes[i].self.ip;
      }
    }
  }

  /** Any two nodes with different addresses that find each other and then hold elections come to agree. */
  lemma TwoNodesMeet(a: PeerInfo, b: PeerInfo, now: int)
    requires a.ip != b.ip
    ensures var c := Cluster([Node(a, [], Standalone, a), Node(b, [], Standalone, b)], [{}, {}]);
      var es := [Discover(0, 1, b.hostname, b.model, now), Discover(1, 0, a.hostname, a.model, now), Elect(0), Elect(1)];
      && Initial(c) && IsRun(c, es)
      && var d := After(c, es);
        |d.nodes| == |d.polled| == 2 && KnewEveryone(d, 0) && KnewEveryone(d, 1) && DistinctIps(a, d.nodes[0].peers)
  {
    hide Winner;
    hide Better;
    var c := Cluster([Node(a, [], Standalone, a), Node(b, [], Standalone, b)], [{}, {}]);
    var e1, e2 := Discover(0, 1, b.hostname, b.model, now), Discover(1, 0, a.hostname, a.model, now);
    var c1 := Step(c, e1);
    var c2 := Step(c1, e2);
    var c3 := Step(c2, Elect(0));
    var d := Step(c3, Elect(1));
    assert c2.nodes[0].peers == [b.(lastSeen := now)] && c2.nodes[1].peers == [a.(lastSeen := now)];
    assert HasIp(c2.nodes[0].peers, b.ip) by { assert c2.nodes[0].peers[0].ip == b.ip; }
    assert HasIp(c3.nodes[1].peers, a.ip) by { assert c3.nodes[1].peers[0].ip == a.ip; }
    assert 1 in d.polled[0] && 0 in d.polled[1];
    OneMore(c3, [Elect(1)]);
    OneMore(c2, [Elect(0), Elect(1)]);
    OneMore(c1, [e2, Elect(0), Elect(1)]);
    OneMore(c, [e1, e2, Elect(0), Elect(1)]);
  }

  lemma OneMore(c: Cluster, es: seq<Event>)
    requires |c.polled| == |c.nodes| && es != [] && Enabled(c, es[0])
    requires |Step(c, es[0]).polled| == |Step(c, es[0]).nodes| && IsRun(Step(c, es[0]), es[1..])
    ensures IsRun(c, es) && After(c, es) == After(Step(c, es[0]), es[1..])
  {
  }
}
