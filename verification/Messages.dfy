/** The compact encoding of addresses and nodes, and the way from messages to their wire form and back. */
module Messages {
  import opened Ids
  import opened Nodes
  import opened Options
  import opened Mutable

  const NODE_BYTE_SIZE: nat := 26

  datatype DecodeError = InvalidNodes4 | Ipv6Unsupported | InvalidSocketAddrEncodingLength

  // A mutable put with a key but no sequence number or signature aborts the decoder.
  datatype Result<+T> = Ok(value: T) | Err(error: DecodeError) | Panic

  // === Words and addresses ===

  function WordBytes(w: bv32): (b: Bytes)
    ensures |b| == 4
  {
    [((w >> 24) & 0xff) as bv8, ((w >> 16) & 0xff) as bv8, ((w >> 8) & 0xff) as bv8, (w & 0xff) as bv8]
  }

  function WordOf(b: Bytes): bv32
    requires |b| == 4
  {
    ((b[0] as bv32) << 24) | ((b[1] as bv32) << 16) | ((b[2] as bv32) << 8) | (b[3] as bv32)
  }

  lemma WordRoundTrip(w: bv32)
    ensures WordOf(WordBytes(w)) == w
  {
  }

  lemma BytesOfWord(b: Bytes)
    requires |b| == 4
    ensures WordBytes(WordOf(b)) == b
  {
    var w := WordOf(b);
    assert WordBytes(w)[0] == b[0] && WordBytes(w)[1] == b[1] && WordBytes(w)[2] == b[2] && WordBytes(w)[3] == b[3];
  }

  function PortBytes(p: bv16): (b: Bytes)
    ensures |b| == 2
  {
    [((p >> 8) & 0xff) as bv8, (p & 0xff) as bv8]
  }

  function PortOf(b: Bytes): bv16
    requires |b| == 2
  {
    ((b[0] as bv16) << 8) | (b[1] as bv16)
  }

  lemma PortRoundTrip(p: bv16, b: Bytes)
    requires |b| == 2
    ensures PortOf(PortBytes(p)) == p && PortBytes(PortOf(b)) == b
  {
    assert PortBytes(PortOf(b))[0] == b[0] && PortBytes(PortOf(b))[1] == b[1];
  }

  function AddrBytes(a: Addr): (b: Bytes)
    ensures |b| == 6
  {
    WordBytes(a.ip) + PortBytes(a.port)
  }

  function AddrOf(b: Bytes): Result<Addr> {
    if |b| == 6 then Ok(Addr(WordOf(b[..4]), PortOf(b[4..6])))
    else if |b| == 18 then Err(Ipv6Unsupported)
    else Err(InvalidSocketAddrEncodingLength)
  }

  /** Addresses and six-byte strings correspond one to one. */
  lemma AddrRoundTrip(a: Addr)
    ensures AddrOf(AddrBytes(a)) == Ok(a)
  {
    WordRoundTrip(a.ip);
    PortRoundTrip(a.port, PortBytes(a.port));
    assert AddrBytes(a)[..4] == WordBytes(a.ip) && AddrBytes(a)[4..6] == PortBytes(a.port);
  }

  lemma BytesOfAddr(b: Bytes)
    requires |b| == 6
    ensures AddrOf(b).Ok? && AddrBytes(AddrOf(b).value) == b
  {
    BytesOfWord(b[..4]);
    PortRoundTrip(0, b[4..6]);
    assert b == b[..4] + b[4..6];
  }

  // === Nodes ===

  function NodeBytes(n: Node): (b: Bytes)
    ensures |b| == NODE_BYTE_SIZE
  {
    n.id + AddrBytes(n.addr)
  }

  function NodesBytes(nodes: seq<Node>): (b: Bytes)
    ensures |b| == NODE_BYTE_SIZE * |nodes|
  {
    if nodes == [] then [] else NodesBytes(nodes[..|nodes| - 1]) + NodeBytes(nodes[|nodes| - 1])
  }

  /** A decoded node is new: just seen, and without a token. */
  function NodeOf(b: Bytes, now: nat): Node
    requires |b| == NODE_BYTE_SIZE
  {
    Node(b[..ID_SIZE], AddrOf(b[ID_SIZE..]).value, None, now)
  }

  function Chunks(b: Bytes, now: nat): (nodes: seq<Node>)
    requires |b| % NODE_BYTE_SIZE == 0
    ensures |nodes| == |b| / NODE_BYTE_SIZE
  {
    if b == [] then []
    else
      var cut := |b| - NODE_BYTE_SIZE;
      Chunks(b[..cut], now) + [NodeOf(b[cut..], now)]
  }

  function NodesOf(b: Bytes, now: nat): Result<seq<Node>> {
    if |b| % NODE_BYTE_SIZE != 0 then Err(InvalidNodes4) else Ok(Chunks(b, now))
  }

  function Renewed(n: Node, now: nat): Node { n.(token := None, lastSeen := now) }

  function AllRenewed(nodes: seq<Node>, now: nat): (r: seq<Node>)
    ensures |r| == |nodes| && forall i :: 0 <= i < |r| ==> r[i] == Renewed(nodes[i], now)
  {
    seq(|nodes|, i requires 0 <= i < |nodes| => Renewed(nodes[i], now))
  }

  lemma NodeRoundTrip(n: Node, now: nat)
    ensures NodeOf(NodeBytes(n), now) == Renewed(n, now)
  {
    AddrRoundTrip(n.addr);
    assert NodeBytes(n)[..ID_SIZE] == n.id && NodeBytes(n)[ID_SIZE..] == AddrBytes(n.addr);
  }

  lemma BytesOfNode(b: Bytes, now: nat)
    requires |b| == NODE_BYTE_SIZE
    ensures NodeBytes(NodeOf(b, now)) == b
  {
    BytesOfAddr(b[ID_SIZE..]);
    assert b == b[..ID_SIZE] + b[ID_SIZE..];
  }

  lemma SplitOff(b: Bytes, i: nat)
    requires i <= |b|
    ensures b == b[..i] + b[i..]
  {
  }

  lemma {:induction false} NodesSnoc(nodes: seq<Node>, n: Node)
    ensures NodesBytes(nodes + [n]) == NodesBytes(nodes) + NodeBytes(n)
  {
    assert (nodes + [n])[..|nodes|] == nodes;
  }

  lemma {:induction false} ChunksSnoc(b: Bytes, last: Bytes, now: nat)
    requires |b| % NODE_BYTE_SIZE == 0 && |last| == NODE_BYTE_SIZE
    ensures Chunks(b + last, now) == Chunks(b, now) + [NodeOf(last, now)]
  {
    assert (b + last)[..|b|] == b && (b + last)[|b|..] == last;
  }

  /** Decoding what was encoded gives the same nodes back, as new ones. */
  lemma {:induction false} NodesRoundTrip(nodes: seq<Node>, now: nat)
    ensures NodesOf(NodesBytes(nodes), now) == Ok(AllRenewed(nodes, now))
  {
    if nodes != [] {
      var init, last := nodes[..|nodes| - 1], nodes[|nodes| - 1];
      NodesRoundTrip(init, now);
      NodeRoundTrip(last, now);
      ChunksSnoc(NodesBytes(init), NodeBytes(last), now);
      assert AllRenewed(nodes, now) == AllRenewed(init, now) + [Renewed(last, now)];
    }
  }

  lemma {:induction false} BytesOfChunks(b: Bytes, now: nat)
    requires |b| % NODE_BYTE_SIZE == 0
    ensures NodesBytes(Chunks(b, now)) == b
  {
    if b != [] {
      var init, last := b[..|b| - NODE_BYTE_SIZE], b[|b| - NODE_BYTE_SIZE..];
      BytesOfChunks(init, now);
      BytesOfNode(last, now);
      NodesSnoc(Chunks(init, now), NodeOf(last, now));
      SplitOff(b, |b| - NODE_BYTE_SIZE);
    }
  }

  /** A byte string decodes exactly when it is the encoding of some nodes, and then of the decoded ones. */
  lemma DecodesIffEncoded(b: Bytes, now: nat)
    ensures NodesOf(b, now).Ok? <==> exists nodes :: NodesBytes(nodes) == b
    ensures NodesOf(b, now).Ok? ==> NodesBytes(NodesOf(b, now).value) == b
    ensures !NodesOf(b, now).Ok? ==> NodesOf(b, now) == Err(InvalidNodes4)
  {
    if NodesOf(b, now).Ok? {
      BytesOfChunks(b, now);
    } else if nodes :| NodesBytes(nodes) == b {
      NodesRoundTrip(nodes, now);
    }
  }

  method EncodeNodes(nodes: seq<Node>) returns (bytes: Bytes)
    ensures bytes == NodesBytes(nodes)
  {
    bytes := [];
    for i := 0 to |nodes|
      invariant bytes == NodesBytes(nodes[..i])
    {
      assert nodes[..i + 1][..i] == nodes[..i];
      Associate(bytes, nodes[i].id, AddrBytes(nodes[i].addr));
      bytes := bytes + nodes[i].id;
      bytes := bytes + AddrBytes(nodes[i].addr);
    }
    assert nodes[..|nodes|] == nodes;
  }

  method DecodeNodes(bytes: Bytes, now: nat) returns (r: Result<seq<Node>>)
    ensures r == NodesOf(bytes, now)
  {
    if |bytes| % NODE_BYTE_SIZE != 0 {
      return Err(InvalidNodes4);
    }
    var nodes := [];
    for i := 0 to |bytes| / NODE_BYTE_SIZE
      invariant nodes == Chunks(bytes[..i * NODE_BYTE_SIZE], now)
    {
      var at := i * NODE_BYTE_SIZE;
      var id := bytes[at..at + ID_SIZE];
      var addr := AddrOf(bytes[at + ID_SIZE..at + NODE_BYTE_SIZE]);
      ghost var more := bytes[..at + NODE_BYTE_SIZE];
      assert more[..at] == bytes[..at];
      assert more[at..][..ID_SIZE] == id && more[at..][ID_SIZE..] == bytes[at + ID_SIZE..at + NODE_BYTE_SIZE];
      nodes := nodes + [Node(id, addr.value, None, now)];
    }
    assert bytes[..|bytes|] == bytes;
    return Ok(nodes);
  }

  // === Peers ===

  function PeersBytes(peers: seq<Addr>): (r: seq<Bytes>)
    ensures |r| == |peers| && forall i :: 0 <= i < |r| ==> r[i] == AddrBytes(peers[i])
  {
    seq(|peers|, i requires 0 <= i < |peers| => AddrBytes(peers[i]))
  }

  /** Stops at the first peer that does not decode. */
  function PeersOf(bs: seq<Bytes>): Result<seq<Addr>> {
    if bs == [] then Ok([])
    else
      match PeersOf(bs[..|bs| - 1])
      case Err(e) => Err(e)
      case Panic => Panic
      case Ok(peers) =>
        match AddrOf(bs[|bs| - 1])
        case Err(e) => Err(e)
        case Panic => Panic
        case Ok(a) => Ok(peers + [a])
  }

  lemma {:induction false} PeersRoundTrip(peers: seq<Addr>)
    ensures PeersOf(PeersBytes(peers)) == Ok(peers)
  {
    if peers != [] {
      var init, last := peers[..|peers| - 1], peers[|peers| - 1];
      PeersRoundTrip(init);
      AddrRoundTrip(last);
      assert PeersBytes(peers)[..|peers| - 1] == PeersBytes(init);
      assert init + [last] == peers;
    }
  }

  // === Messages ===

  datatype PutRequest =
    | AnnouncePeer(infoHash: Id, port: bv16, impliedPort: Option<bool>)
    | PutImmutable(target: Id, v: Bytes)
    | PutItem(item: PutMutable)

  datatype RequestType =
    | Ping
    | FindNode(target: Id)
    | GetPeers(infoHash: Id)
    | GetValue(target: Id, sequence: Option<int>, salt: Option<Bytes>)
    | Put(token: Bytes, request: PutRequest)

  /** Responses, over the form that nodes and peers have: decoded, or compact bytes. */
  datatype ResponseOf<Ns, P> =
    | Pong(id: Id)
    | FoundNodes(id: Id, nodes: Ns)
    | Peers(id: Id, token: Bytes, values: seq<P>, closer: Option<Ns>)
    | Immutable(id: Id, token: Bytes, closer: Option<Ns>, v: Bytes)
    | Item(id: Id, token: Bytes, closer: Option<Ns>, v: Bytes, k: Bytes, sequence: int, sig: Bytes)
    | NoValues(id: Id, token: Bytes, closer: Option<Ns>)
    | NoMoreRecentValue(id: Id, token: Bytes, closer: Option<Ns>, sequence: int)

  type Response = ResponseOf<seq<Node>, Addr>
  type WireResponse = ResponseOf<Bytes, Bytes>

  datatype Body =
    | Request(requester: Id, request: RequestType)
    | Responds(response: Response)
    | Fails(code: int, description: string)

  datatype Message = Message(tid: bv32, version: Option<Bytes>, requesterIp: Option<Addr>, body: Body, readOnly: bool)

  datatype WireRequest =
    | WirePing(id: Id)
    | WireFindNode(id: Id, target: Id)
    | WireGetPeers(id: Id, infoHash: Id)
    | WireGetValue(id: Id, target: Id, sequence: Option<int>)
    | WireAnnouncePeer(id: Id, infoHash: Id, port: bv16, token: Bytes, impliedPort: Option<bv8>)
    | WirePutValue(id: Id, target: Id, token: Bytes, v: Bytes, k: Option<Bytes>, sig: Option<Bytes>,
                   sequence: Option<int>, cas: Option<int>, salt: Option<Bytes>)

  datatype WireBody =
    | WireRequested(request: WireRequest)
    | WireResponds(response: WireResponse)
    | WireFails(code: int, description: string)

  datatype WireMessage =
    WireMessage(tid: Bytes, version: Option<Bytes>, body: WireBody, ip: Option<Bytes>, readOnly: Option<int>)

  // === Encoding ===

  function OptionBytes(nodes: Option<seq<Node>>): Option<Bytes> {
    match nodes
    case Some(ns) => Some(NodesBytes(ns))
    case None => None
  }

  function ToWireRequest(id: Id, r: RequestType): WireRequest {
    match r
    case Ping => WirePing(id)
    case FindNode(target) => WireFindNode(id, target)
    case GetPeers(infoHash) => WireGetPeers(id, infoHash)
    case GetValue(target, sequence, salt) => WireGetValue(id, target, sequence)
    case Put(token, AnnouncePeer(infoHash, port, implied)) =>
      WireAnnouncePeer(id, infoHash, port, token, Some(if implied.Some? then 1 else 0))
    case Put(token, PutImmutable(target, v)) => WirePutValue(id, target, token, v, None, None, None, None, None)
    case Put(token, PutItem(i)) =>
      WirePutValue(id, i.target, token, i.v, Some(i.k), Some(i.sig), Some(i.sequence), i.cas, i.salt)
  }

  function ToWireResponse(r: Response): WireResponse {
    match r
    case Pong(id) => Pong(id)
    case FoundNodes(id, nodes) => FoundNodes(id, NodesBytes(nodes))
    case Peers(id, token, values, closer) => Peers(id, token, PeersBytes(values), OptionBytes(closer))
    case Immutable(id, token, closer, v) => Immutable(id, token, OptionBytes(closer), v)
    case Item(id, token, closer, v, k, sequence, sig) => Item(id, token, OptionBytes(closer), v, k, sequence, sig)
    case NoValues(id, token, closer) => NoValues(id, token, OptionBytes(closer))
    case NoMoreRecentValue(id, token, closer, sequence) => NoMoreRecentValue(id, token, OptionBytes(closer), sequence)
  }

  function ToWireBody(b: Body): WireBody {
    match b
    case Request(id, r) => WireRequested(ToWireRequest(id, r))
    case Responds(r) => WireResponds(ToWireResponse(r))
    case Fails(code, description) => WireFails(code, description)
  }

  function ToWire(m: Message): WireMessage {
    WireMessage(WordBytes(m.tid), m.version, ToWireBody(m.body),
                if m.requesterIp.Some? then Some(AddrBytes(m.requesterIp.value)) else None,
                Some(if m.readOnly then 1 else 0))
  }

  // === Responses are written without a tag ===

  /** The fields of a response's dictionary. */
  datatype Fields =
    Fields(id: Id, token: Option<Bytes>, nodes: Option<Bytes>, values: Option<seq<Bytes>>, v: Option<Bytes>,
           k: Option<Bytes>, sig: Option<Bytes>, sequence: Option<int>)

  function FieldsOf(r: WireResponse): Fields {
    match r
    case Pong(id) => Fields(id, None, None, None, None, None, None, None)
    case FoundNodes(id, nodes) => Fields(id, None, Some(nodes), None, None, None, None, None)
    case Peers(id, token, values, closer) => Fields(id, Some(token), closer, Some(values), None, None, None, None)
    case Immutable(id, token, closer, v) => Fields(id, Some(token), closer, None, Some(v), None, None, None)
    case Item(id, token, closer, v, k, sequence, sig) =>
      Fields(id, Some(token), closer, None, Some(v), Some(k), Some(sig), Some(sequence))
    case NoValues(id, token, closer) => Fields(id, Some(token), closer, None, None, None, None, None)
    case NoMoreRecentValue(id, token, closer, sequence) =>
      Fields(id, Some(token), closer, None, None, None, None, Some(sequence))
  }

  /** The first kind whose required fields are there, the most detailed first. */
  function Untagged(f: Fields): WireResponse {
    if f.token.Some? && f.v.Some? && f.k.Some? && f.sig.Some? && f.sequence.Some?
    then Item(f.id, f.token.value, f.nodes, f.v.value, f.k.value, f.sequence.value, f.sig.value)
    else if f.token.Some? && f.sequence.Some? then NoMoreRecentValue(f.id, f.token.value, f.nodes, f.sequence.value)
    else if f.token.Some? && f.v.Some? then Immutable(f.id, f.token.value, f.nodes, f.v.value)
    else if f.token.Some? && f.values.Some? then Peers(f.id, f.token.value, f.values.value, f.nodes)
    else if f.token.Some? then NoValues(f.id, f.token.value, f.nodes)
    else if f.nodes.Some? then FoundNodes(f.id, f.nodes.value)
    else Pong(f.id)
  }

  /** What the other side reads: everything but responses is tagged with its kind. */
  function ReceivedBody(w: WireBody): WireBody {
    match w
    case WireResponds(r) => WireResponds(Untagged(FieldsOf(r)))
    case _ => w
  }

  function Received(w: WireMessage): WireMessage { w.(body := ReceivedBody(w.body)) }

  // === Decoding ===

  function Map<T, U>(r: Result<T>, f: T -> U): Result<U> {
    match r
    case Ok(x) => Ok(f(x))
    case Err(e) => Err(e)
    case Panic => Panic
  }

  function OptionNodes(b: Option<Bytes>, now: nat): Result<Option<seq<Node>>> {
    match b
    case Some(bytes) => Map(NodesOf(bytes, now), (ns: seq<Node>) => Some(ns))
    case None => Ok(None)
  }

  function FromWireRequest(w: WireRequest): Result<Body> {
    match w
    case WirePing(id) => Ok(Request(id, Ping))
    case WireFindNode(id, target) => Ok(Request(id, FindNode(target)))
    case WireGetPeers(id, infoHash) => Ok(Request(id, GetPeers(infoHash)))
    case WireGetValue(id, target, sequence) => Ok(Request(id, GetValue(target, sequence, None)))
    case WireAnnouncePeer(id, infoHash, port, token, implied) =>
      Ok(Request(id, Put(token, AnnouncePeer(infoHash, port,
                                             if implied.Some? then Some(implied.value != 0) else None))))
    case WirePutValue(id, target, token, v, k, sig, sequence, cas, salt) =>
      if k.None? then Ok(Request(id, Put(token, PutImmutable(target, v))))
      else if sequence.None? || sig.None? then Panic
      else Ok(Request(id, Put(token, PutItem(PutMutable(target, v, k.value, sequence.value, sig.value, salt, cas)))))
  }

  function FromWireResponse(w: WireResponse, now: nat): Result<Response> {
    match w
    case Pong(id) => Ok(Pong(id))
    case FoundNodes(id, nodes) => Map(NodesOf(nodes, now), (ns: seq<Node>) => FoundNodes(id, ns))
    case Peers(id, token, values, closer) =>
      (match OptionNodes(closer, now)
       case Err(e) => Err(e)
       case Panic => Panic
       case Ok(ns) => Map(PeersOf(values), (ps: seq<Addr>) => Peers(id, token, ps, ns)))
    case Immutable(id, token, closer, v) =>
      Map(OptionNodes(closer, now), (ns: Option<seq<Node>>) => Immutable(id, token, ns, v))
    case Item(id, token, closer, v, k, sequence, sig) =>
      Map(OptionNodes(closer, now), (ns: Option<seq<Node>>) => Item(id, token, ns, v, k, sequence, sig))
    case NoValues(id, token, closer) =>
      Map(OptionNodes(closer, now), (ns: Option<seq<Node>>) => NoValues(id, token, ns))
    case NoMoreRecentValue(id, token, closer, sequence) =>
      Map(OptionNodes(closer, now), (ns: Option<seq<Node>>) => NoMoreRecentValue(id, token, ns, sequence))
  }

  function FromWireBody(w: WireBody, now: nat): Result<Body> {
    match w
    case WireRequested(r) => FromWireRequest(r)
    case WireResponds(r) => Map(FromWireResponse(r, now), (x: Response) => Responds(x))
    case WireFails(code, description) => Ok(Fails(code, description))
  }

  function FromWire(w: WireMessage, now: nat): Result<Message>
    requires |w.tid| == 4
  {
    match (if w.ip.Some? then Map(AddrOf(w.ip.value), (a: Addr) => Some(a)) else Ok(None))
    case Err(e) => Err(e)
    case Panic => Panic
    case Ok(ip) =>
      var readOnly := w.readOnly.Some? && w.readOnly.value > 0;
      Map(FromWireBody(w.body, now), (b: Body) => Message(WordOf(w.tid), w.version, ip, b, readOnly))
  }

  // === The round trip ===

  function OptionRenewed(nodes: Option<seq<Node>>, now: nat): Option<seq<Node>> {
    match nodes
    case Some(ns) => Some(AllRenewed(ns, now))
    case None => None
  }

  function RenewedResponse(r: Response, now: nat): Response {
    match r
    case Pong(id) => r
    case FoundNodes(id, nodes) => FoundNodes(id, AllRenewed(nodes, now))
    case Peers(id, token, values, closer) => Peers(id, token, values, OptionRenewed(closer, now))
    case Immutable(id, token, closer, v) => Immutable(id, token, OptionRenewed(closer, now), v)
    case Item(id, token, closer, v, k, sequence, sig) =>
      Item(id, token, OptionRenewed(closer, now), v, k, sequence, sig)
    case NoValues(id, token, closer) => NoValues(id, token, OptionRenewed(closer, now))
    case NoMoreRecentValue(id, token, closer, sequence) =>
      NoMoreRecentValue(id, token, OptionRenewed(closer, now), sequence)
  }

  /** What the wire loses: when nodes were seen and their tokens, a get's salt, and what implied_port said. */
  function ArrivedBody(b: Body, now: nat): Body {
    match b
    case Request(id, GetValue(target, sequence, salt)) => Request(id, GetValue(target, sequence, None))
    case Request(id, Put(token, AnnouncePeer(infoHash, port, implied))) =>
      Request(id, Put(token, AnnouncePeer(infoHash, port, Some(implied.Some?))))
    case Responds(r) => Responds(RenewedResponse(r, now))
    case _ => b
  }

  function Arrived(m: Message, now: nat): Message { m.(body := ArrivedBody(m.body, now)) }

  lemma OptionRoundTrip(nodes: Option<seq<Node>>, now: nat)
    ensures OptionNodes(OptionBytes(nodes), now) == Ok(OptionRenewed(nodes, now))
  {
    if nodes.Some? {
      NodesRoundTrip(nodes.value, now);
    }
  }

  lemma ResponseRoundTrip(r: Response, now: nat)
    ensures FromWireResponse(Untagged(FieldsOf(ToWireResponse(r))), now) == Ok(RenewedResponse(r, now))
  {
    match r {
      case Pong(id) =>
      case FoundNodes(id, nodes) =>
        NodesRoundTrip(nodes, now);
      case Peers(id, token, values, closer) =>
        OptionRoundTrip(closer, now);
        PeersRoundTrip(values);
      case _ =>
        OptionRoundTrip(r.closer, now);
    }
  }

  lemma BodyRoundTrip(b: Body, now: nat)
    ensures FromWireBody(ReceivedBody(ToWireBody(b)), now) == Ok(ArrivedBody(b, now))
  {
    if b.Responds? {
      ResponseRoundTrip(b.response, now);
    }
  }

  /** Every message arrives as it was sent, up to what the wire loses. */
  lemma MessageRoundTrip(m: Message, now: nat)
    ensures FromWire(Received(ToWire(m)), now) == Ok(Arrived(m, now))
  {
    hide FromWireBody, ReceivedBody, ToWireBody, ArrivedBody, WordOf, WordBytes, AddrOf, AddrBytes;
    WordRoundTrip(m.tid);
    BodyRoundTrip(m.body, now);
    if m.requesterIp.Some? {
      AddrRoundTrip(m.requesterIp.value);
    }
  }

  ghost predicate AllNew(nodes: seq<Node>, now: nat) {
    forall i :: 0 <= i < |nodes| ==> nodes[i].token == None && nodes[i].lastSeen == now
  }

  /** The message holds no more than the wire carries; `implied_port` survives only as `Some(true)`. */
  ghost predicate Carried(m: Message, now: nat) {
    match m.body
    case Request(_, GetValue(_, _, salt)) => salt == None
    case Request(_, Put(_, AnnouncePeer(_, _, implied))) => implied == Some(true)
    case Responds(Pong(_)) => true
    case Responds(FoundNodes(_, nodes)) => AllNew(nodes, now)
    case Responds(Peers(_, _, _, closer)) => closer.Some? ==> AllNew(closer.value, now)
    case Responds(Immutable(_, _, closer, _)) => closer.Some? ==> AllNew(closer.value, now)
    case Responds(Item(_, _, closer, _, _, _, _)) => closer.Some? ==> AllNew(closer.value, now)
    case Responds(NoValues(_, _, closer)) => closer.Some? ==> AllNew(closer.value, now)
    case Responds(NoMoreRecentValue(_, _, closer, _)) => closer.Some? ==> AllNew(closer.value, now)
    case _ => true
  }

  lemma RenewedIff(nodes: seq<Node>, now: nat)
    ensures AllRenewed(nodes, now) == nodes <==> AllNew(nodes, now)
  {
    if AllRenewed(nodes, now) == nodes {
      forall i | 0 <= i < |nodes| ensures nodes[i].token == None && nodes[i].lastSeen == now {
        assert AllRenewed(nodes, now)[i] == nodes[i];
      }
    }
  }

  /** A message comes back unchanged exactly when the wire carries all it holds. */
  lemma LosslessIff(m: Message, now: nat)
    ensures FromWire(Received(ToWire(m)), now) == Ok(m) <==> Carried(m, now)
  {
    MessageRoundTrip(m, now);
    ArrivedIff(m, now);
  }

  lemma ArrivedIff(m: Message, now: nat)
    ensures Arrived(m, now) == m <==> Carried(m, now)
  {
    match m.body {
      case Responds(FoundNodes(_, nodes)) => RenewedIff(nodes, now);
      case Responds(Pong(_)) =>
      case Responds(r) => if r.closer.Some? { RenewedIff(r.closer.value, now); }
      case _ =>
    }
  }

  // === Messages of other writers ===

  /** Compact addresses are in network byte order: the example 1.2.3.4:6881, and each octet shows in its own byte. */
  lemma NetworkOrder(a: bv32, p: bv16)
    ensures AddrBytes(Addr(0x0102_0304, 6881)) == [1, 2, 3, 4, 26, 225]
    ensures (WordBytes(a)[0] == 0 <==> a & 0xff00_0000 == 0) && (WordBytes(a)[1] == 0 <==> a & 0x00ff_0000 == 0)
    ensures (WordBytes(a)[2] == 0 <==> a & 0x0000_ff00 == 0) && (WordBytes(a)[3] == 0 <==> a & 0x0000_00ff == 0)
    ensures (PortBytes(p)[0] == 0 <==> p & 0xff00 == 0) && (PortBytes(p)[1] == 0 <==> p & 0x00ff == 0)
  {
    assert WordBytes(0x0102_0304) == [1, 2, 3, 4] && PortBytes(6881) == [26, 225];
  }

  /** An address decodes exactly from six bytes, and an IPv6 one is told apart. */
  lemma AddrDecodesIff(b: Bytes)
    ensures AddrOf(b).Ok? <==> |b| == 6
    ensures AddrOf(b) == Err(Ipv6Unsupported) <==> |b| == 18
    ensures AddrOf(b).Err? || AddrOf(b).Ok?
  {
  }

  /** A list of peers decodes exactly when each does, to peers that encode to it; else the first bad one decides. */
  lemma {:induction false} PeersDecodeIff(bs: seq<Bytes>)
    ensures PeersOf(bs).Ok? <==> forall i :: 0 <= i < |bs| ==> |bs[i]| == 6
    ensures PeersOf(bs).Ok? ==> PeersBytes(PeersOf(bs).value) == bs
    ensures PeersOf(bs).Err? ==>
              exists i :: 0 <= i < |bs| && AddrOf(bs[i]) == Err(PeersOf(bs).error)
                && forall j :: 0 <= j < i ==> |bs[j]| == 6
    ensures !PeersOf(bs).Panic?
  {
    hide AddrBytes, WordOf, PortOf;
    if bs != [] {
      var init, last := bs[..|bs| - 1], bs[|bs| - 1];
      PeersDecodeIff(init);
      if PeersOf(init).Ok? {
        if |last| == 6 {
          BytesOfAddr(last);
          assert bs == init + [last];
        } else {
          assert AddrOf(bs[|bs| - 1]) == Err(PeersOf(bs).error);
        }
      } else {
        var i :| 0 <= i < |init| && AddrOf(init[i]) == Err(PeersOf(init).error)
          && forall j :: 0 <= j < i ==> |init[j]| == 6;
        assert bs[i] == init[i];
      }
    }
  }

  /** A message without the read-only flag comes from a node that is not, and so does one with a flag of zero. */
  lemma ReadOnlyUnlessSaid(m: Message, flag: Option<int>, now: nat)
    ensures FromWire(Received(ToWire(m)).(readOnly := flag), now)
         == Ok(Arrived(m, now).(readOnly := flag.Some? && flag.value >= 1))
  {
    hide FromWireBody, ReceivedBody, ToWireBody, ArrivedBody, WordOf, WordBytes, AddrOf, AddrBytes;
    WordRoundTrip(m.tid);
    BodyRoundTrip(m.body, now);
    if m.requesterIp.Some? {
      AddrRoundTrip(m.requesterIp.value);
    }
  }

  /** A bad requester address fails the message with its own error, whatever its body; a bad body does otherwise. */
  lemma BadPartsFail(w: WireMessage, now: nat)
    requires |w.tid| == 4
    ensures w.ip.Some? && |w.ip.value| != 6 ==>
              FromWire(w, now) == Err(if |w.ip.value| == 18 then Ipv6Unsupported else InvalidSocketAddrEncodingLength)
    ensures (w.ip.Some? ==> |w.ip.value| == 6) ==>
              (FromWire(w, now).Ok? <==> FromWireBody(w.body, now).Ok?)
              && (FromWireBody(w.body, now).Err? ==> FromWire(w, now) == Err(FromWireBody(w.body, now).error))
              && (FromWireBody(w.body, now).Panic? ==> FromWire(w, now).Panic?)
  {
  }

  /** A put with a key aborts the decoder exactly when its seq or signature is missing; nothing else does. */
  lemma PanicsIff(w: WireMessage, now: nat)
    requires |w.tid| == 4 && (w.ip.Some? ==> |w.ip.value| == 6)
    ensures FromWire(w, now).Panic?
       <==> w.body.WireRequested? && w.body.request.WirePutValue?
            && w.body.request.k.Some? && (w.body.request.sequence.None? || w.body.request.sig.None?)
  {
    if w.body.WireResponds? {
      ResponseNeverPanics(w.body.response, now);
    }
  }

  lemma ResponseNeverPanics(w: WireResponse, now: nat)
    ensures !FromWireResponse(w, now).Panic?
  {
    if w.Peers? {
      PeersDecodeIff(w.values);
    }
  }

  /** Of an announcement, the port counts only when the flag is there and not zero. */
  lemma ImpliedPortArrives(id: Id, infoHash: Id, port: bv16, token: Bytes, flag: Option<bv8>)
    ensures FromWireRequest(WireAnnouncePeer(id, infoHash, port, token, flag))
         == Ok(Request(id, Put(token, AnnouncePeer(infoHash, port,
                                                   if flag.None? then None else Some(flag != Some(0))))))
  {
  }

  /** A response's fields are never invented, and only those its kind does not know are ignored. */
  lemma UntaggedKeeps(f: Fields)
    ensures var g := FieldsOf(Untagged(f));
            && g.id == f.id
            && (g.token.Some? ==> g.token == f.token) && (g.nodes.Some? ==> g.nodes == f.nodes)
            && (g.values.Some? ==> g.values == f.values) && (g.v.Some? ==> g.v == f.v)
            && (g.k.Some? ==> g.k == f.k) && (g.sig.Some? ==> g.sig == f.sig)
            && (g.sequence.Some? ==> g.sequence == f.sequence)
            && (f.token.Some? <==> g.token.Some?) && (f.token.Some? ==> g.nodes == f.nodes)
  {
  }
}
