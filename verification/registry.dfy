/**
 * The server's list of connected clients (struct client_list in src/server.h,
 * storeClient/removeClient/searchClient in src/server.c). The C array is grown
 * and shrunk with realloc so that it always holds exactly nClients entries;
 * here that array is the sequence `clientArray` and nClients is its length.
 */
module Registry {
  import opened Wrappers
  import opened Common

  /** client_t: the descriptor of the client's channel, its PID and the channel name. */
  datatype Client = Client(pipe: int, clientPID: int, pipeNom: string)

  /** createClient: the record of a newly connected client. */
  function CreateClient(pipefd: int, clientpid: int, pipenom: string): (c: Client)
    ensures c.pipe == pipefd && c.clientPID == clientpid && c.pipeNom == pipenom
  {
    Client(pipefd, clientpid, pipenom)
  }

  /** Some entry of `s` belongs to `pid`. */
  predicate Registered(s: seq<Client>, pid: int)
  {
    exists i :: 0 <= i < |s| && s[i].clientPID == pid
  }

  /** Every registered channel descriptor is non-negative; a descriptor already closed still counts. */
  predicate AllPipesNonNegative(s: seq<Client>)
  {
    forall i :: 0 <= i < |s| ==> s[i].pipe >= 0
  }

  /** No two entries share a PID. */
  predicate UniquePids(s: seq<Client>)
  {
    forall i, j :: 0 <= i < |s| && 0 <= j < |s| && s[i].clientPID == s[j].clientPID ==> i == j
  }

  /** The index of the first entry of `pid`, if any. */
  function FirstPid(s: seq<Client>, pid: int): (r: Option<nat>)
    ensures r.Some? ==> r.value < |s| && s[r.value].clientPID == pid
    ensures r.Some? ==> forall j :: 0 <= j < r.value ==> s[j].clientPID != pid
    ensures r.None? <==> !Registered(s, pid)
  {
    if |s| == 0 then None
    else if s[0].clientPID == pid then Some(0)
    else
      match FirstPid(s[1..], pid)
      case None => None
      case Some(i) => Some(i + 1)
  }

  /** searchClient's answer: the pipe of the first entry of `pid`, or ERROR_PID_NOT_EXIST. */
  function Lookup(s: seq<Client>, pid: int): (pipe: int)
    ensures forall i :: (0 <= i < |s| && s[i].clientPID == pid &&
              forall j :: 0 <= j < i ==> s[j].clientPID != pid) ==> pipe == s[i].pipe
    ensures !Registered(s, pid) ==> pipe == ErrorPidNotExist
  {
    match FirstPid(s, pid)
    case Some(i) => s[i].pipe
    case None => ErrorPidNotExist
  }

  /** The realloc after a removal: one entry fewer, except that a single entry is kept. */
  function Shrink(s: seq<Client>): seq<Client>
    requires |s| >= 1
  {
    if |s| > 1 then s[..|s| - 1] else s
  }

  /**
   * The list removeClient leaves, or None when it answers ERROR_PID_NOT_EXIST.
   * When the last entry is not `pid`'s, the first entry of `pid` is swapped
   * with the last one; then the last entry is dropped unless it is the only one.
   */
  function Removed(s: seq<Client>, pid: int): (r: Option<seq<Client>>)
    requires |s| >= 1
    ensures r.Some? <==> Registered(s, pid)
  {
    var last := |s| - 1;
    if s[last].clientPID == pid then Some(Shrink(s))
    else
      match FirstPid(s, pid)
      case None => None
      case Some(i) => Some(Shrink(s[i := s[last]][last := s[i]]))
  }

  /**
   * The shape of a removal from a list of two or more: some entry k of `pid`
   * takes the last entry's place and the last position is dropped.
   */
  lemma RemovedShape(s: seq<Client>, pid: int) returns (k: nat)
    requires |s| > 1 && Registered(s, pid)
    ensures k < |s| && s[k].clientPID == pid
    ensures Removed(s, pid) == Some(s[k := s[|s| - 1]][..|s| - 1])
  {
    var last := |s| - 1;
    if s[last].clientPID == pid {
      k := last;
      assert s[k := s[last]] == s;
    } else {
      k := FirstPid(s, pid).value;
      assert s[k := s[last]][last := s[k]][..last] == s[k := s[last]][..last];
    }
  }

  /** Moving the last element into place k and dropping the last position loses exactly s[k]. */
  lemma SwapDropLosesOne<T>(s: seq<T>, k: nat)
    requires k < |s|
    ensures multiset(s) == multiset(s[k := s[|s| - 1]][..|s| - 1]) + multiset{s[k]}
  {
    var last := |s| - 1;
    var t := s[k := s[last]][..last];
    assert s == s[..last] + [s[last]];
    if k < last {
      assert s[..last] == t[k := s[k]];
      assert t[k] == s[last];
    }
  }

  /**
   * With more than one entry, a successful removal drops exactly one entry
   * of `pid` and keeps all the others, in some order.
   */
  lemma RemovedDropsOneEntry(s: seq<Client>, pid: int)
    requires |s| > 1 && Registered(s, pid)
    ensures Removed(s, pid).Some?
    ensures exists k :: 0 <= k < |s| && s[k].clientPID == pid &&
              multiset(s) == multiset(Removed(s, pid).value) + multiset{s[k]}
    ensures |Removed(s, pid).value| == |s| - 1
  {
    var k := RemovedShape(s, pid);
    SwapDropLosesOne(s, k);
  }

  /** A single registered entry is never removed: the list stays as it was. */
  lemma RemovedKeepsSingleEntry(s: seq<Client>, pid: int)
    requires |s| == 1 && Registered(s, pid)
    ensures Removed(s, pid) == Some(s)
    ensures Registered(Removed(s, pid).value, pid)
  {
  }

  /**
   * With unique PIDs and more than one entry, removal unregisters `pid` and
   * keeps every other client.
   */
  lemma RemovedUnregisters(s: seq<Client>, pid: int)
    requires |s| > 1 && Registered(s, pid) && UniquePids(s)
    ensures Removed(s, pid).Some?
    ensures !Registered(Removed(s, pid).value, pid)
    ensures forall c :: c in s && c.clientPID != pid ==> c in Removed(s, pid).value
  {
    var last := |s| - 1;
    var k := RemovedShape(s, pid);
    var t := Removed(s, pid).value;
    assert forall j :: 0 <= j < |t| ==> t[j] == (if j == k then s[last] else s[j]);
    forall c | c in s && c.clientPID != pid
      ensures c in t
    {
      var a :| 0 <= a < |s| && s[a] == c;
      if a < last {
        assert t[a] == c;
      } else {
        assert t[k] == c;
      }
    }
  }

  /**
   * The client list. Methods change it in place as the C functions do; its
   * value is always the sequence the spec functions above describe.
   */
  class ClientList {
    var clientArray: seq<Client>

    /** An empty list (main: nClients = 0). */
    constructor ()
      ensures clientArray == []
    {
      clientArray := [];
    }

    /** storeClient: appends at index nClients. */
    method StoreClient(client: Client) returns (status: int)
      modifies this
      ensures status == SuccessGeneric
      ensures clientArray == old(clientArray) + [client]
    {
      var posNewClient := |clientArray|;
      clientArray := clientArray + [client];
      assert clientArray[posNewClient] == client;
      status := SuccessGeneric;
    }

    /** removeClient: swap to the end, then shrink (not below one entry). */
    method RemoveClient(clientToRemove: int) returns (status: int)
      requires |clientArray| >= 1
      modifies this
      ensures Removed(old(clientArray), clientToRemove).None? ==>
                status == ErrorPidNotExist && clientArray == old(clientArray)
      ensures Removed(old(clientArray), clientToRemove).Some? ==>
                status == SuccessGeneric && clientArray == Removed(old(clientArray), clientToRemove).value
    {
      var n := |clientArray|;
      if clientArray[n - 1].clientPID != clientToRemove {
        var i := 0;
        while i < n && clientArray[i].clientPID != clientToRemove
          invariant 0 <= i <= n
          invariant forall j :: 0 <= j < i ==> clientArray[j].clientPID != clientToRemove
        {
          i := i + 1;
        }
        if i == n {
          return ErrorPidNotExist;
        }
        var toRemove := clientArray[i];
        var last := clientArray[n - 1];
        clientArray := clientArray[i := last][n - 1 := toRemove];
      }
      if n > 1 {
        clientArray := clientArray[..n - 1];
      }
      status := SuccessGeneric;
    }

    /** searchClient: a linear scan that changes nothing. */
    method SearchClient(client: int) returns (pipe: int)
      ensures pipe == Lookup(clientArray, client)
      ensures Registered(clientArray, client) ==>
                exists i :: 0 <= i < |clientArray| && clientArray[i].clientPID == client && pipe == clientArray[i].pipe
    {
      var i := 0;
      while i < |clientArray|
        invariant 0 <= i <= |clientArray|
        invariant forall j :: 0 <= j < i ==> clientArray[j].clientPID != client
      {
        if clientArray[i].clientPID == client {
          return clientArray[i].pipe;
        }
        i := i + 1;
      }
      return ErrorPidNotExist;
    }
  }
}
