/**
 * The server side of src/ClientHandler.java as it runs: one `Registry` object
 * holds what all handler threads share (the handler records, the `clients`
 * list and every write made so far), and each method is one `ClientHandler`
 * method executed by handler `self`, with the source's loops over `clients`.
 * Each method is proved to compute the matching step function of module
 * Routing; module RoutingLaws proves what those steps promise.
 */
module ClientHandler {
  import opened Options
  import opened Envelopes
  import opened Routing
  import opened RoutingLaws

  class Registry {
    /** The `user` and `running` fields of every handler created so far, by id. */
    var handlers: seq<Handler>
    /** The shared `clients` list. */
    var clients: seq<HandlerId>
    /** Every envelope written to some handler's output stream, in order. */
    var log: seq<Delivery>

    function State(): Room
      reads this
    {
      Room(handlers, clients, log)
    }

    predicate Valid()
      reads this
    {
      Consistent(State())
    }

    /** The server's empty list before any connection is accepted. */
    constructor ()
      ensures handlers == [] && clients == [] && log == []
      ensures Valid()
    {
      handlers := [];
      clients := [];
      log := [];
    }

    /** `new ClientHandler(socket, clients)`: running, no user, not yet listed. */
    method NewHandler() returns (self: HandlerId)
      modifies this
      ensures self == |old(handlers)|
      ensures handlers == old(handlers) + [Handler(None, true)]
      ensures clients == old(clients) && log == old(log)
      ensures Fresh(State(), self)
      ensures old(Valid()) ==> Valid()
    {
      self := |handlers|;
      handlers := handlers + [Handler(None, true)];
    }

    /** `sendMessage`: write to handler `to` unless it has stopped running. */
    method SendMessage(to: HandlerId, m: Envelope)
      modifies this`log
      ensures State() == Send(old(State()), to, m)
    {
      if to < |handlers| && handlers[to].running {
        log := log + [Delivery(to, m)];
      }
    }

    /** `broadcastMessage(m, sender)`: the loop over `clients`; `None` is a null sender. */
    method BroadcastMessage(m: Envelope, sender: Option<HandlerId>)
      modifies this`log
      ensures State() == BroadcastStep(old(State()), m, sender)
    {
      var snapshot := clients;
      for i := 0 to |snapshot|
        invariant log == old(log) + Deliver(Recipients(handlers, snapshot[..i], sender), m)
      {
        var client := snapshot[i];
        BroadcastPrefix(old(log), handlers, snapshot, i, sender, m);
        if Some(client) != sender && IsRunning(handlers, client) {
          SendMessage(client, m);
        }
      }
      assert snapshot[..|snapshot|] == snapshot;
    }

    /** `isUsernameTaken`: the search loop over `clients`. */
    method IsUsernameTaken(name: string) returns (taken: bool)
      ensures taken == Taken(handlers, clients, name)
      ensures taken == (name in Names(handlers, clients))
    {
      for i := 0 to |clients|
        invariant forall j :: 0 <= j < i ==> UserOf(handlers, clients[j]) != Some(name)
      {
        var client := clients[i];
        if client < |handlers| && handlers[client].user.Some? && handlers[client].user.value == name {
          return true;
        }
      }
      return false;
    }

    /** The StringBuilder loop of `updateUserList`: `name + ","` per listed handler with a user. */
    method BuildUserList() returns (listing: string)
      ensures listing == JoinRoster(Names(handlers, clients))
    {
      listing := "";
      for i := 0 to |clients|
        invariant listing == JoinRoster(Names(handlers, clients[..i]))
      {
        var client := clients[i];
        assert clients[..i + 1][..i] == clients[..i];
        var named := Names(handlers, clients[..i]);
        if client < |handlers| && handlers[client].user.Some? {
          var name := handlers[client].user.value;
          assert Names(handlers, clients[..i + 1]) == named + [name];
          JoinRosterAppend(named, name);
          listing := listing + name + ",";
        } else {
          assert Names(handlers, clients[..i + 1]) == named + [];
          assert named + [] == named;
        }
      }
      assert clients[..|clients|] == clients;
    }

    /** `updateUserList`: the roster, written to every running listed handler. */
    method UpdateUserList()
      modifies this`log
      ensures State() == PublishRoster(old(State()))
    {
      var listing := BuildUserList();
      var userListMessage := Envelope(ServerName, Everyone, listing, UserList);
      assert userListMessage == RosterMessage(Names(handlers, clients));
      var snapshot := clients;
      for i := 0 to |snapshot|
        invariant log == old(log) + Deliver(Recipients(handlers, snapshot[..i], None), userListMessage)
      {
        var client := snapshot[i];
        BroadcastPrefix(old(log), handlers, snapshot, i, None, userListMessage);
        if IsRunning(handlers, client) {
          SendMessage(client, userListMessage);
        }
      }
      assert snapshot[..|snapshot|] == snapshot;
    }

    /** `sendPrivateMessage` run by `self`: the first matching running handler, then the confirmation. */
    method SendPrivateMessage(self: HandlerId, m: Envelope)
      modifies this`log
      ensures State() == PrivateStep(old(State()), self, m)
    {
      var recipient := m.recipient;
      var snapshot := clients;
      for i := 0 to |snapshot|
        invariant log == old(log)
        invariant FindRecipient(handlers, snapshot, recipient) == FindRecipient(handlers, snapshot[i..], recipient)
      {
        var client := snapshot[i];
        assert snapshot[i..][1..] == snapshot[i + 1..];
        if client < |handlers| && handlers[client].user.Some? && handlers[client].user.value == recipient
          && handlers[client].running
        {
          SendMessage(client, m);
          SendMessage(self, PrivateSent(m.sender, recipient));
          return;
        }
      }
      SendMessage(self, NotOnline(m.sender, recipient));
    }

    /** `updateUsername` run by `self`, which has a user. */
    method UpdateUsername(self: HandlerId, wanted: string)
      requires self < |handlers| && handlers[self].user.Some?
      modifies this
      ensures State() == RenameStep(old(State()), self, wanted)
    {
      var taken := IsUsernameTaken(wanted);
      var current := handlers[self].user.value;
      if taken {
        SendMessage(self, RenameRefused(current, wanted));
        return;
      }
      handlers := handlers[self := handlers[self].(user := Some(wanted))];
      BroadcastMessage(Renamed(current, wanted), None);
      UpdateUserList();
    }

    /** `closeConnection` run by `self`. */
    method CloseConnection(self: HandlerId)
      requires self < |handlers|
      modifies this
      ensures State() == CloseStep(old(State()), self)
      ensures old(Valid()) ==> Valid()
    {
      if Valid() {
        CloseKeepsConsistent(State(), self);
      }
      handlers := handlers[self := handlers[self].(running := false)];
      if handlers[self].user.Some? {
        clients := Remove(clients, self);
        BroadcastMessage(Left(handlers[self].user.value), None);
        UpdateUserList();
      }
    }

    /**
     * The handshake part of `run`: returns whether `self` was registered and
     * should go on to read messages.
     */
    method Handshake(self: HandlerId, first: Option<Envelope>) returns (accepted: bool)
      requires self < |handlers|
      modifies this
      ensures accepted == Accepts(old(State()), first)
      ensures State() == HandshakeStep(old(State()), self, first)
      ensures old(Valid()) && Fresh(old(State()), self) ==> Valid()
    {
      if Valid() && Fresh(State(), self) {
        HandshakeKeepsConsistent(State(), self, first);
      }
      accepted := false;
      if first.Some? && first.value.kind == Connect {
        var name := first.value.content;
        var taken := IsUsernameTaken(name);
        if taken {
          assert HandshakeStep(State(), self, first) == CloseStep(Send(State(), self, Rejection(name)), self);
          SendMessage(self, Rejection(name));
          CloseConnection(self);
          return;
        }
        Admit(self, name);
        accepted := true;
      }
    }

    /** The accepting branch of the handshake: bind, list, confirm, announce, publish. */
    method Admit(self: HandlerId, name: string)
      requires self < |handlers|
      modifies this
      ensures var bound := old(State()).(handlers := old(handlers)[self := old(handlers)[self].(user := Some(name))],
                                         clients := old(clients) + [self]);
        State() == PublishRoster(BroadcastStep(Send(bound, self, Welcome(name)), Joined(name), Some(self)))
    {
      handlers := handlers[self := handlers[self].(user := Some(name))];
      clients := clients + [self];
      SendMessage(self, Welcome(name));
      BroadcastMessage(Joined(name), Some(self));
      UpdateUserList();
    }

    /** `handleMessage` run by `self`; USER_LIST and CONNECT fall to the default branch. */
    method HandleMessage(self: HandlerId, m: Envelope)
      requires self < |handlers| && handlers[self].user.Some?
      modifies this
      ensures State() == HandleStep(old(State()), self, m)
      ensures old(Valid()) && self in old(clients) ==> Valid()
    {
      if Valid() && self in clients {
        HandleKeepsConsistent(State(), self, m);
      }
      match m.kind
      case Broadcast => BroadcastMessage(m, Some(self));
      case Private => SendPrivateMessage(self, m);
      case UsernameUpdate => UpdateUsername(self, m.content);
      case Disconnect => CloseConnection(self);
      case UserList =>
      case Connect =>
    }

    /**
     * `run` for a freshly created handler, given every object it will read
     * (None for a null object); the stream ends after the last one. However
     * it ends, the handler is stopped and unlisted and the invariant holds.
     */
    method Run(self: HandlerId, inbound: seq<Option<Envelope>>)
      requires Valid() && Fresh(State(), self)
      modifies this
      ensures State() == RunSpec(old(State()), self, inbound)
      ensures Valid() && self < |handlers| && !handlers[self].running && self !in clients
    {
      RunEndsClosed(State(), self, inbound);
      if inbound == [] {
        CloseConnection(self);
        return;
      }
      var accepted := Handshake(self, inbound[0]);
      if accepted {
        ReadLoop(self, inbound[1..]);
      }
      CloseConnection(self);
    }

    /** The read loop of `run`: handle each object read (skipping null ones) while running. */
    method ReadLoop(self: HandlerId, rest: seq<Option<Envelope>>)
      requires self < |handlers| && handlers[self].user.Some?
      modifies this
      ensures State() == Serve(old(State()), self, rest)
    {
      ghost var start := State();
      var i := 0;
      while i < |rest| && handlers[self].running
        invariant 0 <= i <= |rest|
        invariant |handlers| == |start.handlers| && handlers[self].user.Some?
        invariant Serve(start, self, rest) == Serve(State(), self, rest[i..])
        decreases |rest| - i
      {
        assert rest[i..][1..] == rest[i + 1..];
        if rest[i].Some? {
          HandleMessage(self, rest[i].value);
        }
        i := i + 1;
      }
    }
  }
}
