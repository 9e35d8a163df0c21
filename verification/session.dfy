/**
 * The server half of the handshake (connectClient, disconnectClient and
 * interpretSignal in src/server.c). The channel calls are outcomes in an Env:
 * `open` of the client's channel yields Env.openFd, the confirmation `write`
 * succeeds when Env.writeOk, and `close` of a valid descriptor succeeds when
 * Env.closeOk (`close` of a negative descriptor always fails).
 */
module Session {
  import opened Wrappers
  import opened Common
  import opened Packets
  import opened Registry

  /**
   * The effect of one signal: the client list afterwards, the status the C
   * function returns, the packet written (if a write was attempted) and the
   * descriptor passed to `close` (if any).
   */
  datatype Step = Step(clients: seq<Client>, status: int, sent: Option<Write>, closes: Option<int>)

  /** Whether `close(fd)` succeeds. */
  predicate CloseSucceeds(fd: int, env: Env)
  {
    fd >= 0 && env.closeOk
  }

  /**
   * The guard of connectClient as written: `type != SIGNAL && code != START_COM`
   * (a conjunction where a disjunction was meant).
   */
  predicate ConnectRejects(p: Packet)
  {
    !p.body.Signal? && CodeWord(p.body) != StartCom
  }

  /** The guard of disconnectClient as written, with STOP_COM. */
  predicate DisconnectRejects(p: Packet)
  {
    !p.body.Signal? && CodeWord(p.body) != StopCom
  }

  /** The client record connectClient builds from the START packet. */
  function NewClient(p: Packet, env: Env): Client
  {
    CreateClient(env.openFd, p.client, TextOf(p.body))
  }

  /** The confirmation connectClient writes to the new client (its buffer is left unset). */
  function Confirmation(c: Client): Write
  {
    Write(c.pipe, Packet(c.clientPID, Signal(SucceedCom, "")))
  }

  /** connectClient as a function of the list before it. */
  function Connect(s: seq<Client>, p: Packet, env: Env): Step
  {
    if ConnectRejects(p) then Step(s, ErrorComunicacion, None, None)
    else if env.openFd < 0 then Step(s, ErrorPipeSerCte, None, None)
    else
      var nuevo := NewClient(p, env);
      var stored := s + [nuevo];
      if env.writeOk then Step(stored, SuccessGeneric, Some(Confirmation(nuevo)), None)
      else
        // the status of removeClient is ignored
        var after := match Removed(stored, nuevo.clientPID)
                     case Some(t) => t
                     case None => stored;
        Step(after, ErrorPipeSerCte, Some(Confirmation(nuevo)), Some(env.openFd))
  }

  /** disconnectClient as a function of the list before it. */
  function Disconnect(s: seq<Client>, p: Packet, env: Env): Step
  {
    if DisconnectRejects(p) then Step(s, ErrorComunicacion, None, None)
    else
      var fd := Lookup(s, p.client);
      if !CloseSucceeds(fd, env) then Step(s, ErrorPipeSerCte, None, Some(fd))
      else
        match Removed(s, p.client)
        case None => Step(s, ErrorPidNotExist, None, Some(fd))
        case Some(t) => Step(t, SuccessGeneric, None, Some(fd))
  }

  /** interpretSignal: START_COM connects, STOP_COM disconnects, any other code fails. */
  function InterpretSignal(s: seq<Client>, p: Packet, env: Env): (r: Step)
    ensures CodeWord(p.body) == StartCom ==> r == Connect(s, p, env)
    ensures CodeWord(p.body) == StopCom ==> r == Disconnect(s, p, env)
    ensures CodeWord(p.body) != StartCom && CodeWord(p.body) != StopCom ==>
              r == Step(s, FailureGeneric, None, None)
  {
    var code := CodeWord(p.body);
    if code == StartCom then Connect(s, p, env)
    else if code == StopCom then Disconnect(s, p, env)
    else Step(s, FailureGeneric, None, None)
  }

  /** A START_COM or STOP_COM packet always passes the guard of the function it is dispatched to. */
  lemma DispatchedSignalsPassGuards(p: Packet)
    ensures CodeWord(p.body) == StartCom ==> !ConnectRejects(p)
    ensures CodeWord(p.body) == StopCom ==> !DisconnectRejects(p)
  {
  }

  /** The guard as written lets through every SIGNAL packet, whatever its code. */
  lemma ConnectGuardAdmitsAnySignal(s: seq<Client>, client: int, code: int, text: string, env: Env)
    requires env.openFd < 0
    ensures Connect(s, Packet(client, Signal(code, text)), env).status == ErrorPipeSerCte
  {
  }

  /**
   * A successful connect appends the new client at index |s| (the old
   * nClients), with the opened descriptor and the channel name from the
   * signal, and writes SUCCEED_COM to that descriptor.
   */
  lemma ConnectRegisters(s: seq<Client>, p: Packet, env: Env)
    requires !ConnectRejects(p) && env.openFd >= 0 && env.writeOk
    ensures var r := Connect(s, p, env);
      && r.status == SuccessGeneric
      && |r.clients| == |s| + 1 && r.clients[..|s|] == s
      && r.clients[|s|] == Client(env.openFd, p.client, TextOf(p.body))
      && r.sent == Some(Write(env.openFd, Packet(p.client, Signal(SucceedCom, ""))))
      && r.closes.None?
      && (!Registered(s, p.client) ==> Lookup(r.clients, p.client) == env.openFd)
  {
    var r := Connect(s, p, env);
    assert r.clients[..|s|] == s;
    if !Registered(s, p.client) {
      var t := r.clients;
      assert t[|s|].clientPID == p.client;
      forall j | 0 <= j < |s|
        ensures t[j].clientPID != p.client
      {
        assert t[j] == s[j];
      }
    }
  }

  /**
   * When the confirmation cannot be written to a client joining a non-empty
   * list, the registration is undone and the descriptor closed.
   */
  lemma {:induction false} ConnectWriteFailureUnwinds(s: seq<Client>, p: Packet, env: Env)
    requires !ConnectRejects(p) && env.openFd >= 0 && !env.writeOk && |s| >= 1
    ensures Connect(s, p, env) ==
              Step(s, ErrorPipeSerCte, Some(Confirmation(NewClient(p, env))), Some(env.openFd))
  {
    var nuevo := NewClient(p, env);
    var stored := s + [nuevo];
    assert stored[|stored| - 1].clientPID == nuevo.clientPID;
    assert stored[..|stored| - 1] == s;
  }

  /**
   * When the list was empty, the failed confirmation leaves the new client
   * registered: removeClient does not shrink a list of one.
   */
  lemma ConnectWriteFailureOnEmptyListKeepsClient(p: Packet, env: Env)
    requires !ConnectRejects(p) && env.openFd >= 0 && !env.writeOk
    ensures var r := Connect([], p, env);
      r.status == ErrorPipeSerCte && r.clients == [NewClient(p, env)] && Registered(r.clients, p.client)
  {
    var r := Connect([], p, env);
    assert r.clients[0].clientPID == p.client;
  }

  /** A connect that fails before the write changes nothing and writes nothing. */
  lemma ConnectEarlyFailureChangesNothing(s: seq<Client>, p: Packet, env: Env)
    requires ConnectRejects(p) || env.openFd < 0
    ensures Connect(s, p, env).clients == s && Connect(s, p, env).sent.None?
    ensures Connect(s, p, env).status != SuccessGeneric
  {
  }

  /** Every registered descriptor stays non-negative across a connect, the unwinding of a failed write included. */
  lemma {:induction false} ConnectKeepsPipesNonNegative(s: seq<Client>, p: Packet, env: Env)
    requires AllPipesNonNegative(s)
    ensures AllPipesNonNegative(Connect(s, p, env).clients)
  {
    if !ConnectRejects(p) && env.openFd >= 0 {
      var stored := s + [NewClient(p, env)];
      assert AllPipesNonNegative(stored);
      if !env.writeOk {
        if |s| >= 1 {
          ConnectWriteFailureUnwinds(s, p, env);
        }
      }
    }
  }

  /** A disconnect from a PID that is not registered closes -1, fails and changes nothing. */
  lemma DisconnectUnknownClient(s: seq<Client>, p: Packet, env: Env)
    requires !DisconnectRejects(p) && !Registered(s, p.client)
    ensures Disconnect(s, p, env) == Step(s, ErrorPipeSerCte, None, Some(ErrorPidNotExist))
  {
  }

  /**
   * A disconnect of a registered client, when closing its descriptor works,
   * closes that descriptor and removes the client as removeClient does.
   */
  lemma {:induction false} DisconnectRemovesClient(s: seq<Client>, p: Packet, env: Env)
    requires !DisconnectRejects(p) && Registered(s, p.client) && AllPipesNonNegative(s) && env.closeOk
    ensures |s| >= 1
    ensures Disconnect(s, p, env) ==
              Step(Removed(s, p.client).value, SuccessGeneric, None, Some(Lookup(s, p.client)))
  {
    var i := FirstPid(s, p.client).value;
    assert Lookup(s, p.client) == s[i].pipe;
  }

  /**
   * With unique PIDs and another client present, a disconnect unregisters
   * the client and keeps every other one.
   */
  lemma DisconnectUnregisters(s: seq<Client>, p: Packet, env: Env)
    requires !DisconnectRejects(p) && Registered(s, p.client) && AllPipesNonNegative(s) && env.closeOk
    requires UniquePids(s) && |s| > 1
    ensures var r := Disconnect(s, p, env);
      && r.status == SuccessGeneric
      && !Registered(r.clients, p.client)
      && |r.clients| == |s| - 1
      && forall c :: c in s && c.clientPID != p.client ==> c in r.clients
  {
    DisconnectRemovesClient(s, p, env);
    RemovedUnregisters(s, p.client);
    RemovedDropsOneEntry(s, p.client);
  }

  /**
   * The last connected client's disconnect succeeds but leaves it in the
   * list, with a descriptor that is now closed.
   */
  lemma DisconnectLastClientStaysRegistered(c: Client, p: Packet, env: Env)
    requires !DisconnectRejects(p) && c.clientPID == p.client && c.pipe >= 0 && env.closeOk
    ensures Disconnect([c], p, env) == Step([c], SuccessGeneric, None, Some(c.pipe))
  {
    assert [c][0].clientPID == p.client;
    DisconnectRemovesClient([c], p, env);
  }

  /**
   * connectClient: the list changes as Connect says, and the write and the
   * close are the ones Connect names.
   */
  method ConnectClient(clients: ClientList, package: Packet, env: Env)
    returns (status: int, sent: Option<Write>, closes: Option<int>)
    modifies clients
    ensures Step(clients.clientArray, status, sent, closes) ==
              Connect(old(clients.clientArray), package, env)
  {
    sent, closes := None, None;
    if !package.body.Signal? && CodeWord(package.body) != StartCom {
      return ErrorComunicacion, sent, closes;
    }
    var pipefd := env.openFd;
    if pipefd < 0 {
      return ErrorPipeSerCte, sent, closes;
    }
    var nuevo := CreateClient(pipefd, package.client, TextOf(package.body));
    var stored := clients.StoreClient(nuevo);
    var toSent := Packet(nuevo.clientPID, Signal(SucceedCom, ""));
    sent := Some(Write(nuevo.pipe, toSent));
    if !env.writeOk {
      var _ := clients.RemoveClient(nuevo.clientPID);
      closes := Some(pipefd);
      return ErrorPipeSerCte, sent, closes;
    }
    status := SuccessGeneric;
  }

  /** disconnectClient: the list changes as Disconnect says. */
  method DisconnectClient(clients: ClientList, package: Packet, env: Env)
    returns (status: int, closes: Option<int>)
    modifies clients
    ensures Step(clients.clientArray, status, None, closes) ==
              Disconnect(old(clients.clientArray), package, env)
  {
    closes := None;
    if !package.body.Signal? && CodeWord(package.body) != StopCom {
      return ErrorComunicacion, closes;
    }
    var client := package.client;
    var pipeSerCte := clients.SearchClient(client);
    closes := Some(pipeSerCte);
    if !CloseSucceeds(pipeSerCte, env) {
      return ErrorPipeSerCte, closes;
    }
    var temp := clients.RemoveClient(client);
    if temp != SuccessGeneric {
      return temp, closes;
    }
    status := SuccessGeneric;
  }

  /** interpretSignal: dispatches on the signal code. */
  method InterpretSignalOn(clients: ClientList, package: Packet, env: Env)
    returns (status: int, sent: Option<Write>, closes: Option<int>)
    modifies clients
    ensures Step(clients.clientArray, status, sent, closes) ==
              InterpretSignal(old(clients.clientArray), package, env)
  {
    var code := CodeWord(package.body);
    if code == StartCom {
      status, sent, closes := ConnectClient(clients, package, env);
    } else if code == StopCom {
      sent := None;
      status, closes := DisconnectClient(clients, package, env);
    } else {
      status, sent, closes := FailureGeneric, None, None;
    }
  }
}
