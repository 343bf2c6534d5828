/**
 * The local pairing client: it stores a received credential durably, and only then
 * acknowledges it, on the socket it came from and only if that socket is still its own.
 */
module PairingClient {
  import opened Wrappers
  import opened DeviceCredential
  import opened PairingChannel

  datatype LocalCredential = LocalCredential(device: DeviceId, secret: Secret)

  /** Frames from the client to the server. */
  datatype Up =
    | AttachFrame(proof: Proof)
    | AckFrame(device: DeviceId, generation: Generation)
    | StorageErrorFrame

  /** `open` tells whether the current socket is still open. */
  datatype Client = Client(
    store: Option<LocalCredential>,
    socket: Option<SocketId>,
    open: bool,
    attached: bool,
    completed: bool,
    closed: bool)

  predicate MayConnect(c: Client) {
    !c.completed && !c.closed && c.socket.None?
  }

  function Connected(c: Client, socket: SocketId): Client {
    c.(socket := Some(socket), open := true, attached := false)
  }

  function Lost(c: Client): Client {
    c.(socket := None, open := false, attached := false)
  }

  /** Any error of a message handler closes the current socket. */
  function Failed(c: Client): Client {
    c.(open := false)
  }

  function Closed(c: Client): Client {
    if c.closed then c else c.(socket := None, open := false, attached := false, closed := true)
  }

  /**
   * Receiving a frame of its own session: an attach notice is noted, a credential starts a
   * replacement of the store. A client that has finished knows no session any more.
   */
  function Received(c: Client, frame: Down): (Client, bool) {
    if c.completed || c.closed then (Failed(c), false)
    else if frame.Attached? then (c.(attached := true), false)
    else (c, true)
  }

  type SessionId = PairingChannel.SessionId

  /** Everything the server may send, as parsed; `Malformed` is any other data. */
  datatype Message =
    | SessionMessage(session: SessionId, frame: Down)
    | ErrorMessage
    | CloseMessage(normal: bool)
    | Malformed

  function MessageReceived(c: Client, session: SessionId, m: Message): (Client, bool) {
    match m
    case SessionMessage(id, frame) => if id != session then (Failed(c), false) else Received(c, frame)
    case CloseMessage(true) => (c, false)
    case _ => (Failed(c), false)
  }

  function Replaced(c: Client, frame: Down): Client
    requires frame.CredentialFrame?
  {
    c.(store := Some(LocalCredential(frame.device, frame.secret)))
  }

  function ReplaceFailed(c: Client, source: SocketId): (Client, Option<Up>) {
    (Failed(c), if c.socket == Some(source) && c.open then Some(StorageErrorFrame) else None)
  }

  /** After the store was replaced. */
  function Stored(c: Client, source: SocketId, frame: Down): (Client, Option<Up>)
    requires frame.CredentialFrame?
  {
    if c.closed then (Failed(c), None)
    else if c.socket != Some(source) || !c.attached || !c.open then (c, None)
    else (c.(completed := true, attached := false), Some(AckFrame(frame.device, frame.generation)))
  }

  /** A message never touches the store: it starts a replacement, and only for its own session. */
  lemma MessagesLeaveTheStore(c: Client, session: SessionId, m: Message)
    ensures MessageReceived(c, session, m).0.store == c.store
    ensures MessageReceived(c, session, m).1 ==>
      m.SessionMessage? && m.session == session && m.frame.CredentialFrame? && !c.completed && !c.closed
  {
  }

  /** A client acknowledges at most once, and then no replacement that ends later does. */
  lemma AcknowledgesOnce(c: Client, source: SocketId, frame: Down, other: SocketId, later: Down)
    requires frame.CredentialFrame? && later.CredentialFrame? && Stored(c, source, frame).1.Some?
    ensures
      var c' := Stored(c, source, frame).0;
      && Stored(c', other, later) == (c', None)
      && !MayConnect(c') && forall f: Down :: !Received(c', f).1 && Received(c', f).0.attached == c'.attached
  {
  }

  /** A client that lost its socket, failed on it or was closed sends nothing more, and keeps what it stored. */
  lemma DeadSocketsAreSilent(c: Client, source: SocketId, frame: Down)
    requires frame.CredentialFrame?
    ensures forall dead | dead == Lost(c) || dead == Failed(c) || (dead == Closed(c) && !c.closed) ::
      && Stored(dead, source, frame).1 == None && ReplaceFailed(dead, source).1 == None
      && dead.store == c.store && dead.completed == c.completed
  {
  }

  /** A client may connect again exactly until it has acknowledged or was closed, and then starts afresh. */
  lemma ClientsReconnect(c: Client, k: SocketId)
    ensures MayConnect(Lost(c)) <==> !c.completed && !c.closed
    ensures !MayConnect(Closed(c)) && Closed(c).closed
    ensures MayConnect(c) ==>
      !c.completed && Connected(c, k) == Client(c.store, Some(k), true, false, false, false)
  {
  }

  /**
   * The notice and the credential of its session, on an open socket, make a client store that
   * credential, and acknowledge that generation for that device, in this order.
   */
  lemma DeliveryIsAcknowledged(c: Client, k: SocketId, session: SessionId, device: DeviceId, g: Generation, secret: Secret)
    requires MayConnect(c)
    ensures
      var frame := CredentialFrame(device, g, secret);
      var (noticed, early) := MessageReceived(Connected(c, k), session, SessionMessage(session, Attached));
      var (asked, replacing) := MessageReceived(noticed, session, SessionMessage(session, frame));
      var (done, reply) := Stored(Replaced(asked, frame), k, frame);
      && !early && replacing && reply == Some(AckFrame(device, g))
      && done.store == Some(LocalCredential(device, secret)) && done.completed
  {
  }

  /** Only a normal close, and messages of its own session while it is unfinished, leave the socket open. */
  lemma BadMessagesCloseTheSocket(c: Client, session: SessionId, m: Message)
    ensures
      var (c', replacing) := MessageReceived(c, session, m);
      var welcome := m.SessionMessage? && m.session == session && !c.completed && !c.closed;
      && (welcome || (m.CloseMessage? && m.normal) ==> c'.open == c.open)
      && (!welcome && !(m.CloseMessage? && m.normal) ==> !c'.open)
      && c'.attached == (c.attached || (welcome && m.frame.Attached?))
      && c'.socket == c.socket && c'.completed == c.completed && c'.closed == c.closed
  {
  }

  /** A storage failure is reported on the socket it came from, if that is still the open one, and closes it. */
  lemma StorageFailureIsReported(c: Client, source: SocketId)
    ensures ReplaceFailed(c, source).1.Some? <==> c.socket == Some(source) && c.open
    ensures ReplaceFailed(c, source).1.Some? ==> ReplaceFailed(c, source).1.value == StorageErrorFrame
    ensures ReplaceFailed(c, source).0 == c.(open := false)
  {
  }

  class LocalPairingClient {
    var store: Option<LocalCredential>
    var socket: Option<SocketId>
    var socketOpen: bool
    var attached: bool
    var completed: bool
    var closed: bool

    function State(): Client
      reads this
    {
      Client(store, socket, socketOpen, attached, completed, closed)
    }

    const sessionId: SessionId

    constructor (store: Option<LocalCredential>, sessionId: SessionId)
      ensures State() == Client(store, None, false, false, false, false) && this.sessionId == sessionId
    {
      this.store, this.sessionId := store, sessionId;
      socket, socketOpen, attached, completed, closed := None, false, false, false, false;
    }

    method OnMessage(m: Message) returns (replacing: bool)
      modifies this
      ensures (State(), replacing) == MessageReceived(old(State()), sessionId, m)
    {
      replacing := false;
      match m {
        case SessionMessage(id, frame) =>
          if id != sessionId || completed || closed {
            socketOpen := false;
          } else if frame.Attached? {
            attached := true;
          } else {
            replacing := true;
          }
        case CloseMessage(normal) => if !normal { socketOpen := false; }
        case ErrorMessage => socketOpen := false;
        case Malformed => socketOpen := false;
      }
    }

    method OnReplaced(source: SocketId, frame: Down) returns (reply: Option<Up>)
      requires frame.CredentialFrame?
      modifies this
      ensures (State(), reply) == Stored(old(State()), source, frame)
    {
      if closed {
        socketOpen := false;
        return None;
      }
      if socket != Some(source) || !attached || !socketOpen {
        return None;
      }
      completed, attached := true, false;
      reply := Some(AckFrame(frame.device, frame.generation));
    }

    method OnReplaceFailed(source: SocketId) returns (reply: Option<Up>)
      modifies this
      ensures (State(), reply) == ReplaceFailed(old(State()), source)
    {
      reply := if socket == Some(source) && socketOpen then Some(StorageErrorFrame) else None;
      socketOpen := false;
    }

    method Close()
      modifies this
      ensures State() == Closed(old(State()))
    {
      if closed {
        return;
      }
      closed, attached, socket, socketOpen := true, false, None, false;
    }
  }
}
