/**
 * The server's membership-and-routing state (src/ClientHandler.java) as a value,
 * and one function per handler step.
 *
 * Every ClientHandler ever created has an id: its position in `handlers`, which
 * holds the two fields the routing logic reads and writes (the bound user,
 * represented by its username, and the `running` flag). `clients` is the
 * shared list of registered handlers, in insertion order. Every write of an
 * envelope to some handler's output stream is appended to `log`.
 */
module Routing {
  import opened Options
  import opened JavaStrings
  import opened Envelopes

  type HandlerId = nat

  datatype Handler = Handler(user: Option<string>, running: bool)

  /** One envelope written to the output stream of handler `to`. */
  datatype Delivery = Delivery(to: HandlerId, msg: Envelope)

  datatype Room = Room(handlers: seq<Handler>, clients: seq<HandlerId>, log: seq<Delivery>)

  // ---------------------------------------------------------------------------
  // Getters (getUser, isRunning) on a handler id

  function UserOf(hs: seq<Handler>, h: HandlerId): Option<string> {
    if h < |hs| then hs[h].user else None
  }

  predicate IsRunning(hs: seq<Handler>, h: HandlerId) {
    h < |hs| && hs[h].running
  }

  // ---------------------------------------------------------------------------
  // The notices the server writes

  const ServerName: string := "Server"
  const Everyone: string := "all"

  function Rejection(name: string): Envelope {
    Envelope(ServerName, name, "Username already taken. Please choose another.", Private)
  }

  function Welcome(name: string): Envelope {
    Envelope(ServerName, name, "Connected successfully!", Connect)
  }

  function Joined(name: string): Envelope {
    Envelope(ServerName, Everyone, name + " has joined the chat!", Broadcast)
  }

  function Left(name: string): Envelope {
    Envelope(ServerName, Everyone, name + " has left the chat!", Broadcast)
  }

  function PrivateSent(sender: string, recipient: string): Envelope {
    Envelope(ServerName, sender, "Private message sent to " + recipient, Private)
  }

  function NotOnline(sender: string, recipient: string): Envelope {
    Envelope(ServerName, sender, "User " + recipient + " is not online or doesn't exist.", Private)
  }

  function RenameRefused(current: string, wanted: string): Envelope {
    Envelope(ServerName, current, "Username " + wanted + " is already taken.", Private)
  }

  function Renamed(oldName: string, newName: string): Envelope {
    Envelope(ServerName, Everyone, oldName + " is now known as " + newName, Broadcast)
  }

  function RosterMessage(names: seq<string>): Envelope {
    Envelope(ServerName, Everyone, JoinRoster(names), UserList)
  }

  // ---------------------------------------------------------------------------
  // Queries over the clients list

  /** `isUsernameTaken`: some listed handler has a user with this name, i.e. the roster lists it. */
  predicate Taken(hs: seq<Handler>, cs: seq<HandlerId>, name: string)
    ensures Taken(hs, cs, name) <==> name in Names(hs, cs)
  {
    ListedIffNamed(hs, cs, name);
    exists i :: 0 <= i < |cs| && UserOf(hs, cs[i]) == Some(name)
  }

  /** The usernames of the listed handlers that have a user, in list order. */
  function Names(hs: seq<Handler>, cs: seq<HandlerId>): (ns: seq<string>)
    ensures |ns| <= |cs|
  {
    if cs == [] then []
    else
      var last := cs[|cs| - 1];
      Names(hs, cs[..|cs| - 1]) + (if UserOf(hs, last).Some? then [UserOf(hs, last).value] else [])
  }

  lemma {:induction false} ListedIffNamed(hs: seq<Handler>, cs: seq<HandlerId>, n: string)
    ensures (exists i :: 0 <= i < |cs| && UserOf(hs, cs[i]) == Some(n)) <==> n in Names(hs, cs)
  {
    if cs != [] {
      var init := cs[..|cs| - 1];
      ListedIffNamed(hs, init, n);
      if exists i :: 0 <= i < |cs| && UserOf(hs, cs[i]) == Some(n) {
        var i :| 0 <= i < |cs| && UserOf(hs, cs[i]) == Some(n);
        if i < |cs| - 1 {
          assert init[i] == cs[i];
        }
      }
      if exists i :: 0 <= i < |init| && UserOf(hs, init[i]) == Some(n) {
        var i :| 0 <= i < |init| && UserOf(hs, init[i]) == Some(n);
        assert cs[i] == init[i];
      }
    }
  }

  /** The roster text the StringBuilder loop builds: `name + ","` per name. */
  function JoinRoster(names: seq<string>): (text: string)
    ensures text == [] <==> names == []
    ensures names != [] ==> text[|text| - 1] == ','
  {
    if names == [] then [] else names[0] + "," + JoinRoster(names[1..])
  }

  /** The listed handlers a broadcast writes to: running ones other than `exclude`, in list order. */
  function Recipients(hs: seq<Handler>, cs: seq<HandlerId>, exclude: Option<HandlerId>): (ids: seq<HandlerId>)
    ensures |ids| <= |cs|
    ensures forall k :: 0 <= k < |ids| ==> ids[k] in cs && IsRunning(hs, ids[k]) && Some(ids[k]) != exclude
  {
    if cs == [] then []
    else
      var last := cs[|cs| - 1];
      var ids := Recipients(hs, cs[..|cs| - 1], exclude);
      assert forall k :: 0 <= k < |ids| ==> ids[k] in cs;
      ids + (if Some(last) != exclude && IsRunning(hs, last) then [last] else [])
  }

  /** The same envelope written to each of `ids`, in order. */
  function Deliver(ids: seq<HandlerId>, m: Envelope): (ds: seq<Delivery>)
    ensures |ds| == |ids|
    ensures forall k :: 0 <= k < |ids| ==> ds[k] == Delivery(ids[k], m)
  {
    if ids == [] then [] else Deliver(ids[..|ids| - 1], m) + [Delivery(ids[|ids| - 1], m)]
  }

  /** The first listed, running handler whose user has this name. */
  function FindRecipient(hs: seq<Handler>, cs: seq<HandlerId>, name: string): (r: Option<HandlerId>)
    ensures r.Some? ==> UserOf(hs, r.value) == Some(name) && IsRunning(hs, r.value)
    ensures r.Some? ==> exists i :: 0 <= i < |cs| && cs[i] == r.value &&
                          forall j :: 0 <= j < i ==> !(UserOf(hs, cs[j]) == Some(name) && IsRunning(hs, cs[j]))
    ensures r.None? ==> forall i :: 0 <= i < |cs| && IsRunning(hs, cs[i]) ==> UserOf(hs, cs[i]) != Some(name)
  {
    if cs == [] then None
    else if UserOf(hs, cs[0]) == Some(name) && IsRunning(hs, cs[0]) then Some(cs[0])
    else
      var r := FindRecipient(hs, cs[1..], name);
      assert forall i :: 1 <= i < |cs| ==> cs[i] == cs[1..][i - 1];
      r
  }

  /** `List.remove(Object)`: drop the first occurrence, if any. */
  function Remove(cs: seq<HandlerId>, x: HandlerId): (rest: seq<HandlerId>)
    ensures x !in cs ==> rest == cs
    ensures multiset(rest) == multiset(cs) - multiset{x}
  {
    var k := IndexOf(cs, x);
    if k == -1 then cs
    else
      assert cs == cs[..k] + [x] + cs[k + 1..];
      cs[..k] + cs[k + 1..]
  }

  // ---------------------------------------------------------------------------
  // The invariant every step keeps

  /**
   * Listed handlers are running and bound to pairwise different usernames
   * (so no handler is listed twice), and a running handler with a user is
   * listed.
   */
  predicate Consistent(r: Room) {
    && (forall i :: 0 <= i < |r.clients| ==>
          IsRunning(r.handlers, r.clients[i]) && UserOf(r.handlers, r.clients[i]).Some?)
    && (forall i, j :: 0 <= i < j < |r.clients| ==>
          UserOf(r.handlers, r.clients[i]) != UserOf(r.handlers, r.clients[j]))
    && (forall h: HandlerId :: h < |r.handlers| && r.handlers[h].user.Some? && r.handlers[h].running ==>
          h in r.clients)
  }

  /** A handler the constructor just made: running, no user yet. */
  predicate Fresh(r: Room, self: HandlerId) {
    self < |r.handlers| && r.handlers[self] == Handler(None, true)
  }

  // ---------------------------------------------------------------------------
  // The steps

  /** `sendMessage`: a write to a handler that is not running is dropped. */
  function Send(r: Room, to: HandlerId, m: Envelope): (s: Room)
    ensures s.handlers == r.handlers && s.clients == r.clients && r.log <= s.log
    ensures |s.log| == |r.log| + 1 <==> IsRunning(r.handlers, to)
    ensures |s.log| <= |r.log| + 1
    ensures |s.log| > |r.log| ==> s.log[|r.log|] == Delivery(to, m)
  {
    if IsRunning(r.handlers, to) then r.(log := r.log + [Delivery(to, m)]) else r
  }

  /** `broadcastMessage(m, sender)`; `exclude == None` stands for a null sender. */
  function BroadcastStep(r: Room, m: Envelope, exclude: Option<HandlerId>): (s: Room)
    ensures s.handlers == r.handlers && s.clients == r.clients && r.log <= s.log
    ensures |s.log| <= |r.log| + |r.clients|
    ensures forall k :: |r.log| <= k < |s.log| ==>
              && s.log[k].msg == m && s.log[k].to in r.clients
              && IsRunning(r.handlers, s.log[k].to) && Some(s.log[k].to) != exclude
  {
    var ids := Recipients(r.handlers, r.clients, exclude);
    var s := r.(log := r.log + Deliver(ids, m));
    assert forall k :: |r.log| <= k < |s.log| ==> s.log[k] == Delivery(ids[k - |r.log|], m);
    s
  }

  /** `updateUserList`: the roster of the list, written to every running listed handler. */
  function PublishRoster(r: Room): (s: Room)
    ensures s.handlers == r.handlers && s.clients == r.clients && r.log <= s.log
    ensures |s.log| <= |r.log| + |r.clients|
    ensures forall k :: |r.log| <= k < |s.log| ==>
              && s.log[k].msg.kind == UserList
              && s.log[k].to in r.clients && IsRunning(r.handlers, s.log[k].to)
  {
    BroadcastStep(r, RosterMessage(Names(r.handlers, r.clients)), None)
  }

  /** `sendPrivateMessage`, run by handler `self`. */
  function PrivateStep(r: Room, self: HandlerId, m: Envelope): (s: Room)
    ensures s.handlers == r.handlers && s.clients == r.clients && r.log <= s.log
    ensures |s.log| <= |r.log| + 2
    ensures forall k :: |r.log| <= k < |s.log| ==>
              || s.log[k].to == self
              || (s.log[k].msg == m && UserOf(r.handlers, s.log[k].to) == Some(m.recipient))
  {
    match FindRecipient(r.handlers, r.clients, m.recipient)
    case Some(c) => Send(Send(r, c, m), self, PrivateSent(m.sender, m.recipient))
    case None => Send(r, self, NotOnline(m.sender, m.recipient))
  }

  /** `updateUsername`, run by handler `self`, which has a user. */
  function RenameStep(r: Room, self: HandlerId, wanted: string): (s: Room)
    requires self < |r.handlers| && r.handlers[self].user.Some?
    ensures s.clients == r.clients
    ensures Taken(r.handlers, r.clients, wanted) ==> s.handlers == r.handlers
    ensures !Taken(r.handlers, r.clients, wanted) ==> s.handlers == r.handlers[self := Handler(Some(wanted), r.handlers[self].running)]
  {
    var current := r.handlers[self].user.value;
    if Taken(r.handlers, r.clients, wanted) then Send(r, self, RenameRefused(current, wanted))
    else
      var renamed := r.(handlers := r.handlers[self := r.handlers[self].(user := Some(wanted))]);
      PublishRoster(BroadcastStep(renamed, Renamed(current, wanted), None))
  }

  /** `closeConnection` of handler `self`. */
  function CloseStep(r: Room, self: HandlerId): (s: Room)
    requires self < |r.handlers|
    ensures s.handlers == r.handlers[self := Handler(r.handlers[self].user, false)]
    ensures r.handlers[self].user.None? ==> s.clients == r.clients && s.log == r.log
    ensures r.handlers[self].user.Some? ==> multiset(s.clients) == multiset(r.clients) - multiset{self}
  {
    var stopped := r.(handlers := r.handlers[self := r.handlers[self].(running := false)]);
    match r.handlers[self].user
    case None => stopped
    case Some(u) =>
      var removed := stopped.(clients := Remove(stopped.clients, self));
      PublishRoster(BroadcastStep(removed, Left(u), None))
  }

  /** Whether the first envelope a handler reads gets it registered. */
  predicate Accepts(r: Room, first: Option<Envelope>) {
    first.Some? && first.value.kind == Connect && !Taken(r.handlers, r.clients, first.value.content)
  }

  /**
   * The handshake part of `run`: the first envelope read (None for a null
   * object). A taken name gets the rejection and `closeConnection`; a free one
   * is bound and announced. Anything else changes nothing here; `run` closes
   * the connection afterwards either way.
   */
  function HandshakeStep(r: Room, self: HandlerId, first: Option<Envelope>): (s: Room)
    requires self < |r.handlers|
    ensures |s.handlers| == |r.handlers|
    ensures forall h :: 0 <= h < |r.handlers| && h != self ==> s.handlers[h] == r.handlers[h]
    ensures s.handlers[self].user == if Accepts(r, first) then Some(first.value.content) else r.handlers[self].user
  {
    if first.None? || first.value.kind != Connect then r
    else
      var name := first.value.content;
      if Taken(r.handlers, r.clients, name) then CloseStep(Send(r, self, Rejection(name)), self)
      else
        var bound := r.(handlers := r.handlers[self := r.handlers[self].(user := Some(name))],
                        clients := r.clients + [self]);
        PublishRoster(BroadcastStep(Send(bound, self, Welcome(name)), Joined(name), Some(self)))
  }

  /** `handleMessage`: USER_LIST and CONNECT are logged and ignored. */
  function HandleStep(r: Room, self: HandlerId, m: Envelope): (s: Room)
    requires self < |r.handlers| && r.handlers[self].user.Some?
    ensures |s.handlers| == |r.handlers| && s.handlers[self].user.Some?
    ensures forall h :: 0 <= h < |r.handlers| && h != self ==> s.handlers[h] == r.handlers[h]
    ensures m.kind == UserList || m.kind == Connect ==> s == r
  {
    match m.kind
    case Broadcast => BroadcastStep(r, m, Some(self))
    case Private => PrivateStep(r, self, m)
    case UsernameUpdate => RenameStep(r, self, m.content)
    case Disconnect => CloseStep(r, self)
    case UserList => r
    case Connect => r
  }

  /** The read loop of `run`: handle each envelope (skipping null objects) while running. */
  function Serve(r: Room, self: HandlerId, inbound: seq<Option<Envelope>>): (s: Room)
    requires self < |r.handlers| && r.handlers[self].user.Some?
    ensures |s.handlers| == |r.handlers| && s.handlers[self].user.Some?
    ensures forall h :: 0 <= h < |r.handlers| && h != self ==> s.handlers[h] == r.handlers[h]
    decreases |inbound|
  {
    if inbound == [] || !r.handlers[self].running then r
    else
      var next := if inbound[0].Some? then HandleStep(r, self, inbound[0].value) else r;
      Serve(next, self, inbound[1..])
  }

  /**
   * All of `run` for handler `self`, given everything it will read (the end of
   * `inbound` is the end of the stream): the handshake, the read loop, and the
   * `closeConnection` in `finally`.
   */
  function RunSpec(r: Room, self: HandlerId, inbound: seq<Option<Envelope>>): (s: Room)
    requires self < |r.handlers|
    ensures |s.handlers| == |r.handlers| && !s.handlers[self].running
  {
    if inbound == [] then CloseStep(r, self)
    else
      var greeted := HandshakeStep(r, self, inbound[0]);
      if Accepts(r, inbound[0]) then CloseStep(Serve(greeted, self, inbound[1..]), self)
      else CloseStep(greeted, self)
  }
}
