/**
 * The delivery of one pairing credential, end to end: the server's completion service and
 * durable stores, its pairing channel, the acknowledgement that runs under the device's
 * lifecycle lock, the network, and the client. The network may lose, repeat and reorder
 * frames; sockets come and go; other parties may connect, but do not know the proof.
 */
module PairingDelivery {
  import opened Wrappers
  import opened DeviceCredential
  import Store = CompletionStore
  import Service = CompletionRecovery
  import opened PairingChannel
  import opened PairingClient

  /** The pairing session, its secret proof, and the deadline of a delivery. */
  datatype Session = Session(pairing: Service.Pairing, proof: Proof, deliveryDeadline: int)

  datatype AttachThread =
    | NoAttach
    | Digesting(socket: SocketId, proof: Proof)
    | Announcing(socket: SocketId)
    | Handing(socket: SocketId)

  /** The acknowledgement: it waits for the lock, and holds it in its last three stages. */
  datatype AckThread =
    | NoAck
    | Waiting(generation: Generation)
    | Reading(generation: Generation)
    | Checking(generation: Generation)
    | Recording(generation: Generation)

  datatype Sent<T> = Sent(socket: SocketId, frame: T)

  /**
   * `sockets` are the client's own. `down` and `up` hold every frame ever sent on them, and
   * `storing` and `stored` every frame whose store replacement has begun or succeeded.
   * `returned` are the values the service has handed out since the server started, and
   * `handed` is history: the first value ever delivered.
   */
  datatype System = System(
    server: Service.World,
    returned: set<Completed>,
    entry: Option<Entry>,
    attach: AttachThread,
    ack: AckThread,
    client: Client,
    sockets: set<SocketId>,
    down: set<Sent<Down>>,
    up: set<Sent<Up>>,
    storing: set<Sent<Down>>,
    stored: set<Sent<Down>>,
    handed: Option<Completed>)

  function Initial(p: Session, store: Option<LocalCredential>, deadline: int): System {
    System(Service.INITIAL, {}, Some(NewEntry(ProofDigestOf(p.proof), deadline)), NoAttach, NoAck,
           Client(store, None, false, false, false, false), {}, {}, {}, {}, {}, None)
  }

  datatype Event =
    | Server(event: Service.Event)
    | DeliverCall(completed: Completed, now: int)
    | Arrives(socket: SocketId, up: Up, now: int)
    | AttachContinues(sent: bool)
    | AckContinues(now: int)
    | SendFails(socket: SocketId)
    | SocketCloses(socket: SocketId)
    | EntryRemoved
    | Connects(socket: SocketId)
    | Receives(socket: SocketId, frame: Down)
    | StoreReplaced(socket: SocketId, frame: Down)
    | StoreFails(socket: SocketId)
    | HandlerContinues(socket: SocketId, frame: Down)
    | ConnectionLost
    | ClientFails
    | ClientCloses

  predicate LockHeld(s: System) {
    s.ack.Reading? || s.ack.Checking? || s.ack.Recording?
  }

  predicate AtRest(w: Service.World) {
    w.progress.Idle? || w.progress.Failed? || w.progress.Returned?
  }

  function Sending(s: System, socket: SocketId, frame: Option<Down>): System {
    if frame.None? then s else s.(down := s.down + {Sent(socket, frame.value)})
  }

  function Replying(s: System, socket: SocketId, frame: Option<Up>): System {
    if frame.None? then s else s.(up := s.up + {Sent(socket, frame.value)})
  }

  // --- Server side -----------------------------------------------------------------------------------

  /**
   * Mutations of the device and the completion service run inside the lifecycle lock, so they
   * wait for an acknowledgement that holds it. Only the channel acknowledges a session.
   */
  predicate MayHappen(p: Session, s: System, e: Service.Event) {
    match e
    case Start => !LockHeld(s)
    case Outside(op) => op.device == p.pairing.device ==> !LockHeld(s)
    case Elsewhere(op, _) => !(op.Acknowledge? && op.id == p.pairing.session)
    case _ => true
  }

  function ServerStep(p: Session, s: System, e: Service.Event): System {
    if !MayHappen(p, s, e) then s
    else
      var w := Service.Step(p.pairing, s.server, e);
      if e.Crash?
      then s.(server := w, returned := {}, entry := None, attach := NoAttach, ack := NoAck)
      else s.(server := w,
              returned := if w.progress.Returned? then s.returned + {w.progress.issued} else s.returned)
  }

  function DeliverStep(p: Session, s: System, completed: Completed, now: int): System {
    if completed !in s.returned then s
    else
      var (entry, ok, frame) := WithDelivery(s.entry, completed, p.pairing.device, p.deliveryDeadline, now);
      var s1 := s.(entry := entry, handed := if ok && s.handed.None? then Some(completed) else s.handed);
      if entry.Some? && entry.value.socket.Some? then Sending(s1, entry.value.socket.value, frame) else s1
  }

  /** A client frame arrives at most where it was sent; others send what they like, but not the proof. */
  predicate MayArrive(p: Session, s: System, socket: SocketId, frame: Up) {
    if socket in s.sockets then Sent(socket, frame) in s.up else frame != AttachFrame(p.proof)
  }

  function ArriveStep(p: Session, s: System, socket: SocketId, frame: Up, now: int): System {
    if !MayArrive(p, s, socket, frame) then s
    else
      match frame
      case AttachFrame(proof) =>
        var (entry, ok) := BeginAttach(s.entry, now);
        s.(entry := entry, attach := if ok then Digesting(socket, proof) else s.attach)
      case AckFrame(device, g) =>
        var (entry, ok) := BeginAcknowledge(s.entry, socket, device, g, now);
        s.(entry := entry, ack := if ok then Waiting(g) else s.ack)
      case StorageErrorFrame => s
  }

  function AttachStep(s: System, sent: bool): System {
    match s.attach
    case NoAttach => s
    case Digesting(socket, proof) =>
      var (entry, ok) := FinishAttach(s.entry, proof, socket);
      if ok then Sending(s.(entry := entry, attach := Announcing(socket)), socket, Some(Attached))
      else s.(entry := entry, attach := NoAttach)
    case Announcing(socket) =>
      var (entry, frame) := Announced(s.entry, socket, sent);
      Sending(s.(entry := entry, attach := if frame.Some? then Handing(socket) else NoAttach), socket, frame)
    case Handing(socket) => s.(entry := Handed(s.entry, socket, sent), attach := NoAttach)
  }

  function RefuseAck(s: System): System {
    s.(ack := NoAck, entry := EndAcknowledge(s.entry, false))
  }

  function AckStep(p: Session, s: System, now: int): System {
    match s.ack
    case NoAck => s
    case Waiting(g) => if AtRest(s.server) then s.(ack := Reading(g)) else s
    case Reading(g) =>
      var (w, r) := Service.StoreCall(p.pairing, s.server, Store.Get(p.pairing.session), now);
      var matching := r.Found? && r.record.Some? && r.record.value.state.Pending?
                      && r.record.value.device == p.pairing.device && Store.SourceOf(r.record.value) == g;
      s.(server := w, ack := if matching then Checking(g) else Recording(g))
    case Checking(g) =>
      if ActiveGeneration(s.server.credentials, p.pairing.device) == Some(g) then s.(ack := Recording(g))
      else RefuseAck(s)
    case Recording(g) =>
      var (w, r) := Service.StoreCall(p.pairing, s.server,
        Store.Acknowledge(p.pairing.session, p.pairing.device, g), now);
      if r.Found? && r.record.Some? then s.(server := w, ack := NoAck, entry := EndAcknowledge(s.entry, true))
      else RefuseAck(s.(server := w))
  }

  // --- Client side -----------------------------------------------------------------------------------

  function ConnectStep(p: Session, s: System, socket: SocketId): System {
    if !MayConnect(s.client) || socket in s.sockets then s
    else
      Replying(s.(client := Connected(s.client, socket), sockets := s.sockets + {socket}),
               socket, Some(AttachFrame(p.proof)))
  }

  function ReceiveStep(s: System, socket: SocketId, frame: Down): System {
    if Sent(socket, frame) !in s.down || socket !in s.sockets then s
    else
      var (client, replacing) := Received(s.client, frame);
      s.(client := client, storing := if replacing then s.storing + {Sent(socket, frame)} else s.storing)
  }

  function StoreStep(s: System, socket: SocketId, frame: Down): System {
    if Sent(socket, frame) !in s.storing || !frame.CredentialFrame? then s
    else s.(client := Replaced(s.client, frame), stored := s.stored + {Sent(socket, frame)})
  }

  function StoreFailStep(s: System, socket: SocketId): System {
    var (client, reply) := ReplaceFailed(s.client, socket);
    Replying(s.(client := client), socket, reply)
  }

  function HandlerStep(s: System, socket: SocketId, frame: Down): System {
    if Sent(socket, frame) !in s.stored || !frame.CredentialFrame? then s
    else
      var (client, reply) := Stored(s.client, socket, frame);
      Replying(s.(client := client), socket, reply)
  }

  function Step(p: Session, s: System, e: Event): System {
    match e
    case Server(event) => ServerStep(p, s, event)
    case DeliverCall(completed, now) => DeliverStep(p, s, completed, now)
    case Arrives(socket, up, now) => ArriveStep(p, s, socket, up, now)
    case AttachContinues(sent) => AttachStep(s, sent)
    case AckContinues(now) => AckStep(p, s, now)
    case SendFails(socket) => s.(entry := SendFailed(s.entry, socket))
    case SocketCloses(socket) => s.(entry := WithoutSocket(s.entry, socket))
    case EntryRemoved => s.(entry := None)
    case Connects(socket) => ConnectStep(p, s, socket)
    case Receives(socket, frame) => ReceiveStep(s, socket, frame)
    case StoreReplaced(socket, frame) => StoreStep(s, socket, frame)
    case StoreFails(socket) => StoreFailStep(s, socket)
    case HandlerContinues(socket, frame) => HandlerStep(s, socket, frame)
    case ConnectionLost => s.(client := Lost(s.client))
    case ClientFails => s.(client := Failed(s.client))
    case ClientCloses => s.(client := Closed(s.client))
  }

  function Run(p: Session, s: System, es: seq<Event>): System
    decreases |es|
  {
    if es == [] then s else Run(p, Step(p, s, es[0]), es[1..])
  }

  // --- Invariant ---------------------------------------------------------------------------------------

  /** The only credential frame there is, once a value was handed out. */
  function FrameOf(p: Session, c: Completed): Down {
    CredentialFrame(p.pairing.device, c.generation, c.secret)
  }

  ghost predicate FramesAgree(p: Session, handed: Option<Completed>, frames: set<Sent<Down>>) {
    forall f <- frames :: f.frame.CredentialFrame? ==> handed.Some? && f.frame == FrameOf(p, handed.value)
  }

  /** The client's durable store holds the delivered secret. */
  predicate ClientHolds(p: Session, client: Client, c: Completed) {
    client.store == Some(LocalCredential(p.pairing.device, c.secret))
  }

  ghost predicate ServiceInv(p: Session, server: Service.World, returned: set<Completed>, handed: Option<Completed>) {
    && Service.Inv(p.pairing, server)
    && (forall c <- returned :: Service.CompletedSound(p.pairing, server.credentials, server.mine, c))
    && (handed.Some? ==> Service.CompletedSound(p.pairing, server.credentials, server.mine, handed.value))
  }

  ghost predicate EntryInv(p: Session, entry: Option<Entry>, attach: AttachThread, ack: AckThread,
                           sockets: set<SocketId>, handed: Option<Completed>) {
    && (entry.Some? ==>
          && entry.value.proofDigest == ProofDigestOf(p.proof)
          && (entry.value.socket.Some? ==> entry.value.socket.value in sockets)
          && (entry.value.attaching <==> !attach.NoAttach?)
          && (entry.value.delivery.None? ==> handed.None? && ack.NoAck?)
          && (entry.value.delivery.Some? ==>
                && handed == Some(entry.value.delivery.value.completed)
                && entry.value.delivery.value.device == p.pairing.device
                && (entry.value.delivery.value.sentSocket.Some? ==>
                      entry.value.delivery.value.sentSocket.value in sockets)
                && (entry.value.delivery.value.acknowledging <==> !ack.NoAck?)))
    && (attach.Digesting? && attach.proof == p.proof ==> attach.socket in sockets)
  }

  ghost predicate ClientInv(p: Session, client: Client, sockets: set<SocketId>, down: set<Sent<Down>>,
                            up: set<Sent<Up>>, storing: set<Sent<Down>>, stored: set<Sent<Down>>,
                            handed: Option<Completed>) {
    && FramesAgree(p, handed, down) && storing <= down && stored <= storing
    && (forall f <- storing :: f.frame.CredentialFrame?)
    && (stored != {} ==> handed.Some? && ClientHolds(p, client, handed.value))
    && (forall f <- up :: f.frame.AckFrame? ==> stored != {})
  }

  /** Under the lock, a pending record that the acknowledgement would match has an active generation. */
  ghost predicate AckInv(p: Session, server: Service.World, ack: AckThread, stored: set<Sent<Down>>,
                         handed: Option<Completed>) {
    && (!ack.NoAck? ==> handed.Some? && ack.generation == handed.value.generation && stored != {})
    && (ack.Reading? || ack.Checking? || ack.Recording? ==> AtRest(server))
    && (ack.Recording? && Service.RecordOf(p.pairing, server).Some? ==>
          PassesAck(p, server, ack.generation, Service.RecordOf(p.pairing, server).value))
  }

  predicate PassesAck(p: Session, server: Service.World, g: Generation, r: Store.Record) {
    r.state.Pending? && r.device == p.pairing.device && Store.SourceOf(r) == g ==>
      ActiveGeneration(server.credentials, p.pairing.device) == Some(g)
  }

  /** A delivered record is the record of the value that was handed out and stored. */
  ghost predicate DeliveredInv(p: Session, server: Service.World, stored: set<Sent<Down>>, handed: Option<Completed>) {
    var r := Service.RecordOf(p.pairing, server);
    r.Some? && r.value.state.Delivered? ==>
      stored != {} && handed.Some? && Store.SourceOf(r.value) == handed.value.generation
  }

  ghost predicate Inv(p: Session, s: System) {
    && ServiceInv(p, s.server, s.returned, s.handed)
    && EntryInv(p, s.entry, s.attach, s.ack, s.sockets, s.handed)
    && ClientInv(p, s.client, s.sockets, s.down, s.up, s.storing, s.stored, s.handed)
    && AckInv(p, s.server, s.ack, s.stored, s.handed)
    && DeliveredInv(p, s.server, s.stored, s.handed)
  }

  // --- Server steps ------------------------------------------------------------------------------------

  /** What is known of a completed value survives every step of the service and its surroundings. */
  lemma ServiceStepKeepsSound(p: Service.Pairing, w: Service.World, e: Service.Event, c: Completed)
    requires Service.Inv(p, w) && Service.CompletedSound(p, w.credentials, w.mine, c)
    ensures
      var w' := Service.Step(p, w, e);
      Service.CompletedSound(p, w'.credentials, w'.mine, c)
  {
    match e
    case Outside(op) => Service.CredentialChangeKeepsCompleted(p, w.credentials, op, w.mine, c);
    case Service(now) =>
      if w.progress.Issuing? {
        Service.CredentialChangeKeepsCompleted(p, w.credentials,
          Issue(p.device, w.nextId, DigestOf(w.nextId), now), w.mine, c);
      } else if w.progress.Rotating? && w.progress.recovery.target.Some? {
        var r := w.progress.recovery;
        Service.CredentialChangeKeepsCompleted(p, w.credentials,
          Rotate(p.device, r.credentialId, r.version, r.target.value, DigestOf(w.nextId), now), w.mine, c);
      }
    case _ =>
  }

  /** Nothing but the channel makes the session's record delivered. */
  lemma ServiceStepDelivers(p: Service.Pairing, w: Service.World, e: Service.Event)
    requires !(e.Elsewhere? && e.call.Acknowledge? && e.call.id == p.session)
    ensures
      var r' := Service.RecordOf(p, Service.Step(p, w, e));
      r'.Some? && r'.value.state.Delivered? ==> Service.RecordOf(p, w) == r'
  {
    match e
    case Elsewhere(op, now) => if Service.ForeignOp(p, op) { Service.ForeignOpEffect(p, w.entries, op, now); }
    case Service(now) => ServiceDeliversNothing(p, w, now);
    case _ =>
  }

  lemma StoreCallDeliversNothing(p: Service.Pairing, w: Service.World, op: Store.StoreOp, now: int)
    requires !op.Acknowledge?
    ensures
      var r' := Service.RecordOf(p, Service.StoreCall(p, w, op, now).0);
      r'.Some? && r'.value.state.Delivered? ==> Service.RecordOf(p, w) == r'
  {
    var r' := Service.RecordOf(p, Service.StoreCall(p, w, op, now).0);
    if r'.Some? && r'.value.state.Delivered? && Service.RecordOf(p, w) != r' {
      Store.DeliveredOnlyByAcknowledgement(w.entries, op, now, p.limits, p.session);
    }
  }

  lemma ServiceDeliversNothing(p: Service.Pairing, w: Service.World, now: int)
    ensures
      var r' := Service.RecordOf(p, Service.Proceed(p, w, now));
      r'.Some? && r'.value.state.Delivered? ==> Service.RecordOf(p, w) == r'
  {
    match w.progress
    case ReadingPersisted => StoreCallDeliversNothing(p, w, Store.Get(p.session), now);
    case ReadingRecord(_) => StoreCallDeliversNothing(p, w, Store.Get(p.session), now);
    case Reserving => StoreCallDeliversNothing(p, w, Store.Reserve(p.session), now);
    case Discarding => StoreCallDeliversNothing(p, w, Store.Delete(p.session), now);
    case StoringPending(issued) =>
      var g := issued.generation;
      StoreCallDeliversNothing(p, w, Store.SetPending(p.session, p.device, g.credentialId, g.version), now);
    case Beginning(g) =>
      StoreCallDeliversNothing(p, w,
        Store.BeginRecovery(p.session, p.device, g.credentialId, g.version, w.nextId), now);
    case Advancing(_, r, active) =>
      StoreCallDeliversNothing(p, w,
        Store.AdvanceRecovery(p.session, p.device, Store.SourceOf(r), active, w.nextId), now);
    case Finishing(_, r, issued) =>
      StoreCallDeliversNothing(p, w,
        Store.FinishRecovery(p.session, p.device, Store.SourceOf(r), issued.generation), now);
    case _ =>
  }

  lemma ServerStepKeepsAck(p: Session, s: System, e: Service.Event)
    requires Inv(p, s) && MayHappen(p, s, e)
    ensures
      var s' := ServerStep(p, s, e);
      AckInv(p, s'.server, s'.ack, s'.stored, s'.handed)
  {
    match e
    case Elsewhere(op, now) =>
      if Service.ForeignOp(p.pairing, op) { Service.ForeignOpEffect(p.pairing, s.server.entries, op, now); }
    case _ =>
  }

  lemma ServerStepKeeps(p: Session, s: System, e: Service.Event)
    requires Inv(p, s)
    ensures Inv(p, ServerStep(p, s, e))
  {
    if MayHappen(p, s, e) {
      var s' := ServerStep(p, s, e);
      Service.StepKeeps(p.pairing, s.server, e);
      forall c | c in s.returned
        ensures Service.CompletedSound(p.pairing, s'.server.credentials, s'.server.mine, c)
      {
        ServiceStepKeepsSound(p.pairing, s.server, e, c);
      }
      if s.handed.Some? {
        ServiceStepKeepsSound(p.pairing, s.server, e, s.handed.value);
      }
      ServiceStepDelivers(p.pairing, s.server, e);
      ServerStepKeepsAck(p, s, e);
    }
  }

  /** Every frame that the server sends is an attach notice or the one credential. */
  lemma SendingKeepsClient(p: Session, s: System, socket: SocketId, frame: Option<Down>)
    requires ClientInv(p, s.client, s.sockets, s.down, s.up, s.storing, s.stored, s.handed)
    requires
      frame == None || frame == Some(Attached) || (s.handed.Some? && frame == Some(FrameOf(p, s.handed.value)))
    ensures
      var s' := Sending(s, socket, frame);
      ClientInv(p, s'.client, s'.sockets, s'.down, s'.up, s'.storing, s'.stored, s'.handed)
  {
  }

  lemma DeliverKeepsEntry(p: Session, s: System, completed: Completed, now: int)
    requires EntryInv(p, s.entry, s.attach, s.ack, s.sockets, s.handed)
    ensures
      var (entry, ok, frame) := WithDelivery(s.entry, completed, p.pairing.device, p.deliveryDeadline, now);
      var handed := if ok && s.handed.None? then Some(completed) else s.handed;
      && EntryInv(p, entry, s.attach, s.ack, s.sockets, handed)
      && (frame.Some? ==> handed.Some? && frame == Some(FrameOf(p, handed.value)))
  {
  }

  lemma DeliverKeeps(p: Session, s: System, completed: Completed, now: int)
    requires Inv(p, s)
    ensures Inv(p, DeliverStep(p, s, completed, now))
  {
    if completed in s.returned {
      DeliverKeepsEntry(p, s, completed, now);
      var (entry, ok, frame) := WithDelivery(s.entry, completed, p.pairing.device, p.deliveryDeadline, now);
      var s1 := s.(entry := entry, handed := if ok && s.handed.None? then Some(completed) else s.handed);
      assert ClientInv(p, s1.client, s1.sockets, s1.down, s1.up, s1.storing, s1.stored, s1.handed);
      if entry.Some? && entry.value.socket.Some? {
        SendingKeepsClient(p, s1, entry.value.socket.value, frame);
      }
    }
  }

  lemma ArriveKeeps(p: Session, s: System, socket: SocketId, frame: Up, now: int)
    requires Inv(p, s)
    ensures Inv(p, ArriveStep(p, s, socket, frame, now))
  {
  }

  lemma FinishAttachKeeps(p: Session, s: System)
    requires Inv(p, s) && s.attach.Digesting?
    ensures Inv(p, AttachStep(s, true)) && AttachStep(s, false) == AttachStep(s, true)
  {
    var (entry, ok) := FinishAttach(s.entry, s.attach.proof, s.attach.socket);
    if ok {
      SendingKeepsClient(p, s.(entry := entry, attach := Announcing(s.attach.socket)), s.attach.socket, Some(Attached));
    }
  }

  lemma AnnouncedKeeps(p: Session, s: System, sent: bool)
    requires Inv(p, s) && s.attach.Announcing?
    ensures Inv(p, AttachStep(s, sent))
  {
    var socket := s.attach.socket;
    var (entry, frame) := Announced(s.entry, socket, sent);
    SendingKeepsClient(p, s.(entry := entry, attach := if frame.Some? then Handing(socket) else NoAttach),
                       socket, frame);
  }

  lemma AttachKeeps(p: Session, s: System, sent: bool)
    requires Inv(p, s)
    ensures Inv(p, AttachStep(s, sent))
  {
    match s.attach
    case Digesting(_, _) => FinishAttachKeeps(p, s);
    case Announcing(_) => AnnouncedKeeps(p, s, sent);
    case _ =>
  }

  /** Expiry may remove the session's record; an acknowledgement may deliver exactly its generation. */
  lemma AckCallEffect(p: Service.Pairing, w: Service.World, g: Generation, now: int)
    requires Service.Inv(p, w)
    ensures
      var w1 := Service.StoreCall(p, w, Store.Get(p.session), now).0;
      Service.Inv(p, w1)
      && (Service.RecordOf(p, w1).Some? ==> Service.RecordOf(p, w1) == Service.RecordOf(p, w))
    ensures
      var (w2, r) := Service.StoreCall(p, w, Store.Acknowledge(p.session, p.device, g), now);
      && Service.Inv(p, w2)
      && (Service.RecordOf(p, w2).Some? ==>
            || Service.RecordOf(p, w2) == Service.RecordOf(p, w)
            || (Service.RecordOf(p, w2).value.state.Delivered? && Store.SourceOf(Service.RecordOf(p, w2).value) == g))
  {
    Service.ForeignStepKeeps(p, w, Store.Get(p.session), now);
    Service.ForeignStepKeeps(p, w, Store.Acknowledge(p.session, p.device, g), now);
  }

  lemma RefusalKeeps(p: Session, s: System)
    requires Inv(p, s)
    ensures Inv(p, RefuseAck(s))
  {
  }

  lemma ReadingKeeps(p: Session, s: System, now: int)
    requires Inv(p, s) && s.ack.Reading?
    ensures Inv(p, AckStep(p, s, now))
  {
    AckCallEffect(p.pairing, s.server, s.ack.generation, now);
  }

  lemma RecordingKeeps(p: Session, s: System, now: int)
    requires Inv(p, s) && s.ack.Recording?
    ensures Inv(p, AckStep(p, s, now))
  {
    AckCallEffect(p.pairing, s.server, s.ack.generation, now);
    var (w, r) := Service.StoreCall(p.pairing, s.server,
      Store.Acknowledge(p.pairing.session, p.pairing.device, s.ack.generation), now);
    var s1 := s.(server := w);
    assert DeliveredInv(p, w, s.stored, s.handed);
    if !(r.Found? && r.record.Some?) {
      assert AckInv(p, w, s.ack, s.stored, s.handed);
      RefusalKeeps(p, s1);
    }
  }

  lemma AckKeeps(p: Session, s: System, now: int)
    requires Inv(p, s)
    ensures Inv(p, AckStep(p, s, now))
  {
    match s.ack
    case Reading(_) => ReadingKeeps(p, s, now);
    case Recording(_) => RecordingKeeps(p, s, now);
    case Checking(_) => RefusalKeeps(p, s);
    case _ =>
  }

  lemma ReceiveKeeps(p: Session, s: System, socket: SocketId, frame: Down)
    requires Inv(p, s)
    ensures Inv(p, ReceiveStep(s, socket, frame))
    ensures Inv(p, StoreStep(s, socket, frame))
  {
  }

  lemma EntryEventsKeep(p: Session, s: System, e: Event)
    requires Inv(p, s) && (e.SendFails? || e.SocketCloses? || e.EntryRemoved?)
    ensures Inv(p, Step(p, s, e))
  {
  }

  lemma ClientEventsKeep(p: Session, s: System, e: Event)
    requires Inv(p, s)
    requires e.Connects? || e.StoreFails? || e.HandlerContinues? || e.ConnectionLost? || e.ClientFails? || e.ClientCloses?
    ensures Inv(p, Step(p, s, e))
  {
  }

  lemma StepKeeps(p: Session, s: System, e: Event)
    requires Inv(p, s)
    ensures Inv(p, Step(p, s, e))
  {
    match e
    case Server(event) => ServerStepKeeps(p, s, event);
    case DeliverCall(completed, now) => DeliverKeeps(p, s, completed, now);
    case Arrives(socket, up, now) => ArriveKeeps(p, s, socket, up, now);
    case AttachContinues(sent) => AttachKeeps(p, s, sent);
    case AckContinues(now) => AckKeeps(p, s, now);
    case Receives(socket, frame) => ReceiveKeeps(p, s, socket, frame);
    case StoreReplaced(socket, frame) => ReceiveKeeps(p, s, socket, frame);
    case SendFails(_) => EntryEventsKeep(p, s, e);
    case SocketCloses(_) => EntryEventsKeep(p, s, e);
    case EntryRemoved => EntryEventsKeep(p, s, e);
    case _ => ClientEventsKeep(p, s, e);
  }

  lemma {:induction false} RunKeeps(p: Session, s: System, es: seq<Event>)
    requires Inv(p, s)
    ensures Inv(p, Run(p, s, es))
    decreases |es|
  {
    if es != [] {
      StepKeeps(p, s, es[0]);
      RunKeeps(p, Step(p, s, es[0]), es[1..]);
    }
  }

  lemma InitialInv(p: Session, store: Option<LocalCredential>, deadline: int)
    ensures Inv(p, Initial(p, store, deadline))
  {
  }

  // --- Results -----------------------------------------------------------------------------------------

  predicate IsDelivered(p: Session, s: System) {
    var r := Service.RecordOf(p.pairing, s.server);
    r.Some? && r.value.state.Delivered?
  }

  /** The client's store verifies against the active credential, which is the one the record names. */
  predicate StoredSecretIsActive(p: Session, s: System) {
    var r := Service.RecordOf(p.pairing, s.server);
    && r.Some? && s.client.store.Some? && s.client.store.value.device == p.pairing.device
    && Verify(s.server.credentials, p.pairing.device, DigestOf(s.client.store.value.secret)).Some?
    && ActiveGeneration(s.server.credentials, p.pairing.device) == Some(Store.SourceOf(r.value))
  }

  lemma DeliveringStep(p: Session, s: System, now: int)
    requires Inv(p, s) && !IsDelivered(p, s) && IsDelivered(p, AckStep(p, s, now))
    ensures s.ack.Recording? && AckStep(p, s, now).server.credentials == s.server.credentials
    ensures ActiveGeneration(s.server.credentials, p.pairing.device) == Some(s.ack.generation)
  {
    if s.ack.Recording? {
      Store.DeliveredOnlyByAcknowledgement(s.server.entries,
        Store.Acknowledge(p.pairing.session, p.pairing.device, s.ack.generation), now,
        p.pairing.limits, p.pairing.session);
    }
  }

  /** A generation that is active and was handed out has the secret that was handed out with it. */
  lemma HandedSecretVerifies(p: Session, s: System)
    requires Inv(p, s) && s.handed.Some?
    requires ActiveGeneration(s.server.credentials, p.pairing.device) == Some(s.handed.value.generation)
    ensures Verify(s.server.credentials, p.pairing.device, DigestOf(s.handed.value.secret)).Some?
  {
  }

  /**
   * At the step where the session's completion becomes delivered, the client's durable store
   * holds a secret that verifies against the device's active credential, and the record names
   * the active generation.
   */
  lemma DeliveredMeansStored(p: Session, store: Option<LocalCredential>, deadline: int, es: seq<Event>, e: Event)
    ensures
      var s := Run(p, Initial(p, store, deadline), es);
      var s' := Step(p, s, e);
      !IsDelivered(p, s) && IsDelivered(p, s') ==> StoredSecretIsActive(p, s')
  {
    InitialInv(p, store, deadline);
    RunKeeps(p, Initial(p, store, deadline), es);
    var s := Run(p, Initial(p, store, deadline), es);
    if !IsDelivered(p, s) && IsDelivered(p, Step(p, s, e)) {
      DeliveredStepMeansStored(p, s, e);
    }
  }

  lemma DeliveredStepMeansStored(p: Session, s: System, e: Event)
    requires Inv(p, s) && !IsDelivered(p, s) && IsDelivered(p, Step(p, s, e))
    ensures StoredSecretIsActive(p, Step(p, s, e))
  {
    StepKeeps(p, s, e);
    match e
    case Server(event) => ServiceStepDelivers(p.pairing, s.server, event);
    case AckContinues(now) =>
      DeliveringStep(p, s, now);
      HandedSecretVerifies(p, s);
    case _ =>
  }

  /** A delivered session stays stored: no later duplicate, reconnect or failure takes the secret away. */
  lemma DeliveredStaysStored(p: Session, store: Option<LocalCredential>, deadline: int, es: seq<Event>)
    requires IsDelivered(p, Run(p, Initial(p, store, deadline), es))
    ensures
      var s := Run(p, Initial(p, store, deadline), es);
      s.handed.Some? && ClientHolds(p, s.client, s.handed.value)
      && Store.SourceOf(Service.RecordOf(p.pairing, s.server).value) == s.handed.value.generation
  {
    InitialInv(p, store, deadline);
    RunKeeps(p, Initial(p, store, deadline), es);
  }

  /** All credential frames of a session, over any sockets and resumes, carry one and the same secret. */
  lemma OneCredentialPerSession(p: Session, store: Option<LocalCredential>, deadline: int, es: seq<Event>)
    ensures
      var s := Run(p, Initial(p, store, deadline), es);
      forall f <- s.down, g <- s.down :: f.frame.CredentialFrame? && g.frame.CredentialFrame? ==> f.frame == g.frame
  {
    InitialInv(p, store, deadline);
    RunKeeps(p, Initial(p, store, deadline), es);
  }

  /** An attach or an acknowledgement is taken up only when no other is under way. */
  lemma OneAttachAndOneAcknowledgement(p: Session, store: Option<LocalCredential>, deadline: int, es: seq<Event>,
                                       socket: SocketId, frame: Up, now: int)
    ensures
      var s := Run(p, Initial(p, store, deadline), es);
      var s' := ArriveStep(p, s, socket, frame, now);
      (s'.ack != s.ack ==> s.ack.NoAck?) && (s'.attach != s.attach ==> s.attach.NoAttach?)
  {
    InitialInv(p, store, deadline);
    RunKeeps(p, Initial(p, store, deadline), es);
  }

  // --- A lost socket loses nothing ---------------------------------------------------------------------

  /** The record waits for its acknowledgement, unexpired and current. */
  predicate Awaiting(p: Session, s: System, now: int) {
    && AtRest(s.server)
    && s.entry.Some? && s.entry.value.deadline > now
    && s.entry.value.delivery.Some? && !s.entry.value.delivery.value.acknowledging
    && p.pairing.session in s.server.entries && s.server.entries[p.pairing.session].expiresAt > now
    && Service.RecordOf(p.pairing, s.server).Some?
    && Service.RecordOf(p.pairing, s.server).value.state.Pending?
    && Service.RecordOf(p.pairing, s.server).value.device == p.pairing.device
    && Store.SourceOf(Service.RecordOf(p.pairing, s.server).value) == s.entry.value.delivery.value.completed.generation
    && ActiveGeneration(s.server.credentials, p.pairing.device)
       == Some(s.entry.value.delivery.value.completed.generation)
  }

  lemma RunCons(p: Session, s: System, e: Event, es: seq<Event>)
    ensures Run(p, s, [e] + es) == Run(p, Step(p, s, e), es)
  {
    assert ([e] + es)[1..] == es;
  }

  lemma AckCompletes(p: Session, s: System, socket: SocketId, now: int) returns (es: seq<Event>)
    requires Inv(p, s) && Awaiting(p, s, now)
    requires s.entry.value.socket == Some(socket) && socket in s.sockets
    requires Sent(socket, AckFrame(p.pairing.device, s.entry.value.delivery.value.completed.generation)) in s.up
    ensures IsDelivered(p, Run(p, s, es))
  {
    var g := s.entry.value.delivery.value.completed.generation;
    var arrives, continues := Arrives(socket, AckFrame(p.pairing.device, g), now), AckContinues(now);
    var s1 := Step(p, s, arrives);
    assert s1.ack == Waiting(g);
    var s2 := Step(p, s1, continues);
    var s3 := Step(p, s2, continues);
    assert s3.ack == Checking(g) && s3.server.credentials == s.server.credentials;
    var s4 := Step(p, s3, continues);
    var s5 := Step(p, s4, continues);
    assert IsDelivered(p, s5);
    es := [arrives] + ([continues] + ([continues] + ([continues] + ([continues] + []))));
    RunCons(p, s4, continues, []);
    RunCons(p, s3, continues, [continues] + []);
    RunCons(p, s2, continues, [continues] + ([continues] + []));
    RunCons(p, s1, continues, [continues] + ([continues] + ([continues] + [])));
    RunCons(p, s, arrives, [continues] + ([continues] + ([continues] + ([continues] + []))));
  }

  lemma StoringCompletes(p: Session, s: System, socket: SocketId, now: int) returns (es: seq<Event>)
    requires Inv(p, s) && Awaiting(p, s, now) && socket in s.sockets
    requires s.entry.value.socket == Some(socket)
    requires Sent(socket, FrameFor(s.entry.value.delivery.value)) in s.down
    requires s.client.socket == Some(socket) && s.client.open && s.client.attached
    requires !s.client.completed && !s.client.closed
    ensures IsDelivered(p, Run(p, s, es))
  {
    var frame := FrameFor(s.entry.value.delivery.value);
    var e1, e2, e3 := Receives(socket, frame), StoreReplaced(socket, frame), HandlerContinues(socket, frame);
    var s1 := Step(p, s, e1);
    var s2 := Step(p, s1, e2);
    var s3 := Step(p, s2, e3);
    StepKeeps(p, s, e1);
    StepKeeps(p, s1, e2);
    StepKeeps(p, s2, e3);
    var rest := AckCompletes(p, s3, socket, now);
    es := [e1] + ([e2] + ([e3] + rest));
    RunCons(p, s2, e3, rest);
    RunCons(p, s1, e2, [e3] + rest);
    RunCons(p, s, e1, [e2] + ([e3] + rest));
  }

  /** From an entry without a socket: attaching, receiving, storing and acknowledging. */
  lemma FreshSocketDelivers(p: Session, s: System, socket: SocketId, now: int) returns (es: seq<Event>)
    requires Inv(p, s) && Awaiting(p, s, now)
    requires s.entry.value.socket.None? && !s.entry.value.attaching
    requires MayConnect(s.client) && socket !in s.sockets
    ensures IsDelivered(p, Run(p, s, es))
  {
    var e1, e2 := Connects(socket), Arrives(socket, AttachFrame(p.proof), now);
    var e3, e4 := AttachContinues(true), Receives(socket, Attached);
    var s1 := Step(p, s, e1);
    StepKeeps(p, s, e1);
    var s2 := Step(p, s1, e2);
    StepKeeps(p, s1, e2);
    assert s2.attach == Digesting(socket, p.proof);
    var s3 := Step(p, s2, e3);
    StepKeeps(p, s2, e3);
    assert s3.attach == Announcing(socket) && s3.entry.value.socket == Some(socket);
    var s4 := Step(p, s3, e3);
    StepKeeps(p, s3, e3);
    var s5 := Step(p, s4, e4);
    StepKeeps(p, s4, e4);
    var rest := StoringCompletes(p, s5, socket, now);
    es := [e1] + ([e2] + ([e3] + ([e3] + ([e4] + rest))));
    RunCons(p, s4, e4, rest);
    RunCons(p, s3, e3, [e4] + rest);
    RunCons(p, s2, e3, [e3] + ([e4] + rest));
    RunCons(p, s1, e2, [e3] + ([e3] + ([e4] + rest)));
    RunCons(p, s, e1, [e2] + ([e3] + ([e3] + ([e4] + rest))));
  }

  /** The acknowledgement of a generation is accepted: for the first time while it is active, or once more. */
  predicate AcceptsAck(p: Session, s: System, g: Generation, now: int) {
    && Store.HoldsRecord(s.server.entries, p.pairing.session, now)
    && var r := s.server.entries[p.pairing.session].record;
       && r.device == p.pairing.device && r.credentialId == g.credentialId && r.version == g.version
       && !r.state.Recovering?
       && (r.state.Pending? ==> ActiveGeneration(s.server.credentials, p.pairing.device) == Some(g))
  }

  /** The same entry, waiting for an acknowledgement again. */
  predicate MayBeRepeated(e: Option<Entry>, e': Option<Entry>) {
    match e
    case None => e' == None
    case Some(was) =>
      e' == Some(if was.delivery.None? then was else was.(delivery := Some(was.delivery.value.(acknowledging := false))))
  }

  lemma RecordingOutcome(p: Session, s: System, now: int)
    requires s.ack.Recording?
    ensures
      var s' := AckStep(p, s, now);
      var g := s.ack.generation;
      s'.ack.NoAck?
      && if Store.HoldsRecord(s.server.entries, p.pairing.session, now)
            && s.server.entries[p.pairing.session].record.device == p.pairing.device
            && Store.SourceOf(s.server.entries[p.pairing.session].record) == g
            && !s.server.entries[p.pairing.session].record.state.Recovering?
         then s'.entry == None && Service.RecordOf(p.pairing, s'.server)
                == Some(s.server.entries[p.pairing.session].record.(state := Store.Delivered))
         else MayBeRepeated(s.entry, s'.entry)
  {
  }

  lemma CheckingOutcome(p: Session, s: System, now: int)
    requires s.ack.Checking?
    ensures
      var s' := AckStep(p, s, now);
      if ActiveGeneration(s.server.credentials, p.pairing.device) == Some(s.ack.generation)
      then s' == s.(ack := Recording(s.ack.generation))
      else s'.ack.NoAck? && MayBeRepeated(s.entry, s'.entry)
  {
  }

  lemma ReadingOutcome(p: Session, s: System, now: int)
    requires s.ack.Reading?
    ensures
      var s' := AckStep(p, s, now);
      && s' == s.(server := s.server.(entries := Store.Live(s.server.entries, now)), ack := s'.ack)
      && s'.ack == if Store.HoldsRecord(s.server.entries, p.pairing.session, now)
                      && s.server.entries[p.pairing.session].record.state.Pending?
                      && s.server.entries[p.pairing.session].record.device == p.pairing.device
                      && Store.SourceOf(s.server.entries[p.pairing.session].record) == s.ack.generation
                   then Checking(s.ack.generation) else Recording(s.ack.generation)
  {
  }

  /**
   * An acknowledgement that comes to its turn ends the entry and marks the record delivered
   * exactly if it is accepted, and otherwise leaves the entry to be acknowledged again.
   */
  lemma AcknowledgementOutcome(p: Session, s: System, now: int) returns (s': System, es: seq<Event>)
    requires s.ack.Waiting? && AtRest(s.server)
    ensures forall e <- es :: e == AckContinues(now)
    ensures s' == Run(p, s, es) && s'.ack.NoAck?
    ensures
      if AcceptsAck(p, s, s.ack.generation, now)
      then s'.entry == None && Service.RecordOf(p.pairing, s'.server)
             == Some(s.server.entries[p.pairing.session].record.(state := Store.Delivered))
      else MayBeRepeated(s.entry, s'.entry)
  {
    var e := AckContinues(now);
    var s1 := Step(p, s, e);
    var s2 := Step(p, s1, e);
    ReadingOutcome(p, s1, now);
    var s3 := Step(p, s2, e);
    if s2.ack.Recording? {
      RecordingOutcome(p, s2, now);
      s', es := s3, [e] + ([e] + ([e] + []));
    } else {
      CheckingOutcome(p, s2, now);
      if s3.ack.NoAck? {
        s', es := s3, [e] + ([e] + ([e] + []));
      } else {
        RecordingOutcome(p, s3, now);
        s', es := Step(p, s3, e), [e] + ([e] + ([e] + ([e] + [])));
        RunCons(p, s3, e, []);
      }
    }
    RunCons(p, s2, e, es[3..]);
    RunCons(p, s1, e, es[2..]);
    RunCons(p, s, e, es[1..]);
    assert es == [e] + es[1..] && es[1..] == [e] + es[2..] && es[2..] == [e] + es[3..];
  }

  lemma {:induction false} RunAppend(p: Session, s: System, es: seq<Event>, more: seq<Event>)
    ensures Run(p, s, es + more) == Run(p, Run(p, s, es), more)
    decreases |es|
  {
    if es == [] {
      assert es + more == more;
    } else {
      assert (es + more)[1..] == es[1..] + more;
      RunAppend(p, Step(p, s, es[0]), es[1..], more);
    }
  }

  /** A storage failure of the client on its open socket is sent to the server, and loses neither its store nor its delivery. */
  lemma StorageFailureIsSent(p: Session, s: System, socket: SocketId)
    requires s.client.socket == Some(socket) && s.client.open
    ensures
      var s' := Step(p, s, StoreFails(socket));
      && Sent(socket, StorageErrorFrame) in s'.up && !s'.client.open
      && s'.client.store == s.client.store && s'.entry == s.entry && s'.server == s.server
  {
  }

  /** The client, its sockets and the waiting delivery are as before. */
  ghost predicate StillWaits(p: Session, s: System, s': System, now: int) {
    && Inv(p, s') && Awaiting(p, s', now) && s'.client == s.client && s'.sockets == s.sockets
    && s.entry.Some? && s.entry.value.delivery.Some?
    && s'.entry.value.delivery.value.completed == s.entry.value.delivery.value.completed
  }

  /** Closing the attached socket frees the entry: nothing of that socket remains on it. */
  lemma ClosedSocketIsGone(p: Session, s: System, k: SocketId)
    ensures
      var s' := Step(p, s, SocketCloses(k));
      s.entry.Some? && s.entry.value.socket == Some(k) ==>
        && s'.entry.Some? && s'.entry.value.socket == None
        && (s'.entry.value.delivery.Some? ==> s'.entry.value.delivery.value.sentSocket != Some(k))
        && (s.entry.value.delivery.Some? <==> s'.entry.value.delivery.Some?)
        && s'.entry.value.attaching == s.entry.value.attaching && s'.entry.value.deadline == s.entry.value.deadline
  {
  }

  lemma SocketCloseWaits(p: Session, s: System, k: SocketId, now: int)
    requires Inv(p, s) && Awaiting(p, s, now)
    ensures StillWaits(p, s, Step(p, s, SocketCloses(k)), now)
    ensures Step(p, s, SocketCloses(k)).attach == s.attach
  {
    EntryEventsKeep(p, s, SocketCloses(k));
  }

  /** An attach under way ends when its sends fail, and then the entry can be attached again. */
  lemma AttachFailureWaits(p: Session, s: System, now: int) returns (es: seq<Event>)
    requires Inv(p, s) && Awaiting(p, s, now)
    ensures StillWaits(p, s, Run(p, s, es), now) && Run(p, s, es).attach.NoAttach?
    ensures s.attach.NoAttach? ==> es == []
    decreases match s.attach case Digesting(_, _) => 2 case Announcing(_) => 1 case Handing(_) => 1 case NoAttach => 0
  {
    if s.attach.NoAttach? {
      es := [];
    } else {
      var e := AttachContinues(false);
      var s1 := Step(p, s, e);
      AttachKeeps(p, s, false);
      var rest := AttachFailureWaits(p, s1, now);
      es := [e] + rest;
      RunCons(p, s, e, rest);
    }
  }

  lemma LostConnectionWaits(p: Session, s: System, now: int)
    requires Inv(p, s) && Awaiting(p, s, now) && !s.client.completed && !s.client.closed
    ensures
      var s' := Step(p, s, ConnectionLost);
      && Inv(p, s') && Awaiting(p, s', now) && s'.entry == s.entry && s'.attach == s.attach
      && s'.sockets == s.sockets && MayConnect(s'.client)
  {
    ClientEventsKeep(p, s, ConnectionLost);
  }

  /**
   * Whatever happened before, and whatever socket is still attached or attaching, as long as the
   * delivery waits and the client has not finished, the old socket's close and a fresh one
   * suffice: there is a continuation in which the credential is delivered.
   */
  lemma ReconnectDelivers(p: Session, s: System, socket: SocketId, now: int) returns (es: seq<Event>)
    requires Inv(p, s) && Awaiting(p, s, now)
    requires !s.client.completed && !s.client.closed && socket !in s.sockets
    ensures IsDelivered(p, Run(p, s, es))
    ensures s.attach.NoAttach? && s.entry.value.socket.Some? ==>
      es != [] && es[0] == SocketCloses(s.entry.value.socket.value)
  {
    var settle := AttachFailureWaits(p, s, now);
    var s1 := Run(p, s, settle);
    var close := if s1.entry.value.socket.Some? then [SocketCloses(s1.entry.value.socket.value)] else [];
    var s2 := Run(p, s1, close);
    if close != [] {
      RunCons(p, s1, close[0], []);
      assert close == [close[0]] + [];
      SocketCloseWaits(p, s1, s1.entry.value.socket.value, now);
      ClosedSocketIsGone(p, s1, s1.entry.value.socket.value);
    }
    var s3 := Step(p, s2, ConnectionLost);
    LostConnectionWaits(p, s2, now);
    var rest := FreshSocketDelivers(p, s3, socket, now);
    RunCons(p, s2, ConnectionLost, rest);
    RunAppend(p, s1, close, [ConnectionLost] + rest);
    RunAppend(p, s, settle, close + ([ConnectionLost] + rest));
    es := settle + (close + ([ConnectionLost] + rest));
  }

  /** The first four steps of the service issue a credential and record it as pending. */
  lemma FirstCompletion(p: Session, w: Service.World, now: int)
    requires w == Service.INITIAL && p.pairing.limits.maxRecords >= 1 && p.pairing.limits.retentionMs >= 1
    ensures
      var w1 := Service.Step(p.pairing, w, Service.Start);
      var w2 := Service.Proceed(p.pairing, w1, now);
      var w3 := Service.Proceed(p.pairing, w2, now);
      var w4 := Service.Proceed(p.pairing, w3, now);
      var w5 := Service.Proceed(p.pairing, w4, now);
      && !w1.progress.Returned? && !w2.progress.Returned? && !w3.progress.Returned? && !w4.progress.Returned?
      && w5.progress.Returned?
      && ActiveGeneration(w5.credentials, p.pairing.device) == Some(w5.progress.issued.generation)
      && p.pairing.session in w5.entries && w5.entries[p.pairing.session].expiresAt > now
      && Service.RecordOf(p.pairing, w5).Some?
      && Service.RecordOf(p.pairing, w5).value.state.Pending?
      && Service.RecordOf(p.pairing, w5).value.device == p.pairing.device
      && Store.SourceOf(Service.RecordOf(p.pairing, w5).value) == w5.progress.issued.generation
  {
    var w1 := Service.Step(p.pairing, w, Service.Start);
    var w2 := Service.Proceed(p.pairing, w1, now);
    assert w2 == w.(progress := Service.Reserving);
    var w3 := Service.Proceed(p.pairing, w2, now);
    assert w3.progress.Issuing?;
    var w4 := Service.Proceed(p.pairing, w3, now);
    assert w4.progress.StoringPending?;
  }

  lemma ServiceRuns(p: Session, s: System, e: Service.Event)
    requires e.Start? || e.Service?
    ensures
      var s' := Run(p, s, [Server(e)]);
      && s' == s.(server := s'.server, returned := s'.returned)
      && (MayHappen(p, s, e) ==>
            && s'.server == Service.Step(p.pairing, s.server, e)
            && s'.returned == if s'.server.progress.Returned? then s.returned + {s'.server.progress.issued} else s.returned)
  {
    RunCons(p, s, Server(e), []);
    assert [Server(e)] == [Server(e)] + [];
  }

  /** From the start, the service completes the session for the first time. */
  lemma CompletesFirst(p: Session, s: System, now: int) returns (es: seq<Event>)
    requires s.server == Service.INITIAL && s.ack.NoAck?
    requires p.pairing.limits.maxRecords >= 1 && p.pairing.limits.retentionMs >= 1
    ensures
      var s', w := Run(p, s, es), Run(p, s, es).server;
      && s' == s.(server := w, returned := s'.returned) && w.progress.Returned? && w.progress.issued in s'.returned
      && ActiveGeneration(w.credentials, p.pairing.device) == Some(w.progress.issued.generation)
      && p.pairing.session in w.entries && w.entries[p.pairing.session].expiresAt > now
      && Service.RecordOf(p.pairing, w).Some?
      && Service.RecordOf(p.pairing, w).value.state.Pending?
      && Service.RecordOf(p.pairing, w).value.device == p.pairing.device
      && Store.SourceOf(Service.RecordOf(p.pairing, w).value) == w.progress.issued.generation
  {
    FirstCompletion(p, s.server, now);
    var start, on := [Server(Service.Start)], [Server(Service.Service(now))];
    var s1 := Run(p, s, start);
    var s2 := Run(p, s1, on);
    var s3 := Run(p, s2, on);
    var s4 := Run(p, s3, on);
    ServiceRuns(p, s, Service.Start);
    ServiceRuns(p, s1, Service.Service(now));
    ServiceRuns(p, s2, Service.Service(now));
    ServiceRuns(p, s3, Service.Service(now));
    ServiceRuns(p, s4, Service.Service(now));
    es := start + (on + (on + (on + on)));
    RunAppend(p, s3, on, on);
    RunAppend(p, s2, on, on + on);
    RunAppend(p, s1, on, on + (on + on));
    RunAppend(p, s, start, on + (on + (on + on)));
  }

  /** From the start, with live deadlines and room in the store, delivery is possible. */
  lemma DeliveryIsPossible(p: Session, store: Option<LocalCredential>, deadline: int, now: int)
    returns (es: seq<Event>)
    requires p.pairing.limits.maxRecords >= 1 && p.pairing.limits.retentionMs >= 1
    requires deadline > now && p.deliveryDeadline > now
    ensures IsDelivered(p, Run(p, Initial(p, store, deadline), es))
  {
    var s := Initial(p, store, deadline);
    InitialInv(p, store, deadline);
    var completing := CompletesFirst(p, s, now);
    var s5 := Run(p, s, completing);
    var deliver := [DeliverCall(s5.server.progress.issued, now)];
    var s6 := Run(p, s5, deliver);
    RunCons(p, s5, deliver[0], []);
    assert deliver == [deliver[0]] + [];
    RunKeeps(p, s, completing);
    RunKeeps(p, s5, deliver);
    var rest := FreshSocketDelivers(p, s6, 0, now);
    RunAppend(p, s5, deliver, rest);
    RunAppend(p, s, completing, deliver + rest);
    es := completing + (deliver + rest);
  }
}
