/** Request/response correlation of sidecar/internal/mcp/peer.go: calls, the reader goroutine and
    Close, interleaved in every possible way. */
module McpPeer {
  import opened Options

  /** A decoded frame: its id, when present and an integer, its method name, and the rest. */
  datatype Message = Message(id: Option<int>, name: string, body: string)

  /** Neither request nor notification: the default case of route. */
  predicate IsResponse(m: Message) {
    m.name == ""
  }

  class Chan {
    var buffer: Option<Message>
    var closed: bool

    constructor ()
      ensures buffer == None && !closed
    {
      buffer, closed := None, false;
    }

    predicate Unused()
      reads this
    {
      buffer.None? && !closed
    }

    /** Sending to a closed channel panics, and to a full one blocks. */
    method Send(m: Message)
      requires !closed && buffer.None?
      modifies this
      ensures buffer == Some(m) && !closed
    {
      buffer := Some(m);
    }

    /** Closing a closed channel panics. */
    method Close()
      requires !closed
      modifies this
      ensures closed && buffer == old(buffer)
    {
      closed := true;
    }
  }

  /** The guarded fields of Peer and what its critical sections do to them, for channels of any kind. */
  datatype Table<C> = Table(nextID: int, pending: map<int, C>, closed: bool) {
    function Count(): Table<C> { this.(nextID := nextID + 1) }
    function Enter(id: int, ch: C): Table<C> { if closed then this else this.(pending := pending[id := ch]) }
    function Drop(id: int): Table<C> { this.(pending := pending - {id}) }
    function Clear(): Table<C> { this.(pending := map[]) }
    function Shut(): Table<C> { this.(closed := true) }
  }

  class Peer {
    var nextID: int
    var pending: map<int, Chan>
    var closed: bool

    constructor ()
      ensures Valid() && View() == Table(0, map[], false)
    {
      nextID, pending, closed := 0, map[], false;
    }

    function View(): Table<Chan>
      reads this
    {
      Table(nextID, pending, closed)
    }

    /** Every pending channel is open and empty, belongs to one id, and that id was handed out. */
    ghost predicate Valid()
      reads this, pending.Values
    {
      && (forall id :: id in pending ==> id <= nextID && pending[id].Unused())
      && (forall i, j :: i in pending && j in pending && i != j ==> pending[i] != pending[j])
    }

    /** The head of Call: a fresh id, a fresh channel, and the registration unless closed. */
    method Register() returns (id: int, ch: Chan, ok: bool)
      requires Valid()
      modifies this
      ensures Valid() && fresh(ch) && ch.Unused()
      ensures View() == old(View()).Count().Enter(id, ch)
      ensures id == nextID && id !in old(pending) && (ok <==> !closed)
    {
      nextID := nextID + 1;
      id := nextID;
      ch := new Chan();
      ok := !closed;
      if ok {
        pending := pending[id := ch];
      }
    }

    method Deliver(m: Message)
      requires Valid()
      modifies this, pending.Values
      ensures Valid() && View() == if m.id.Some? then old(View()).Drop(m.id.value) else old(View())
      ensures forall id :: id in old(pending) ==>
                old(pending)[id].buffer == (if m.id == Some(id) then Some(m) else None) &&
                !old(pending)[id].closed
    {
      if m.id.None? {
        return;
      }
      var id := m.id.value;
      if id in pending {
        var ch := pending[id];
        pending := pending - {id};
        ch.Send(m);
      }
      assert pending == old(pending) - {id};
    }

    method DropPending(id: int)
      requires Valid()
      modifies this
      ensures Valid() && View() == old(View()).Drop(id)
    {
      pending := pending - {id};
    }

    /** Closes every pending channel, each once, in whatever order the map is walked. */
    method FailPending()
      requires Valid()
      modifies this, pending.Values
      ensures Valid() && View() == old(View()).Clear()
      ensures forall id :: id in old(pending) ==> old(pending)[id].closed && old(pending)[id].buffer == None
    {
      ghost var all := pending;
      while pending != map[]
        invariant forall id :: id in pending ==> id in all && pending[id] == all[id]
        invariant nextID == old(nextID) && closed == old(closed)
        invariant forall id :: id in all ==> all[id].buffer == None && (all[id].closed <==> id !in pending)
        decreases |pending|
      {
        assert |pending.Items| > 0;
        var entry :| entry in pending.Items;
        var (id, ch) := entry;
        assert id in pending && pending[id] == ch;
        ch.Close();
        pending := pending - {id};
      }
    }

    method Close() returns (first: bool)
      modifies this`closed
      ensures View() == old(View()).Shut() && first == !old(closed)
    {
      first := !closed;
      closed := true;
    }
  }
}
