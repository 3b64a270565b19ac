/**
 * What the server's steps promise (src/ClientHandler.java), proved about the
 * step functions of module Routing: who receives what, that usernames stay
 * unique, and that a finished `run` leaves its handler unregistered.
 */
module RoutingLaws {
  import opened Options
  import opened JavaStrings
  import opened Envelopes
  import opened Routing

  predicate Distinct(cs: seq<HandlerId>) {
    forall i, j :: 0 <= i < j < |cs| ==> cs[i] != cs[j]
  }

  /** The writes a step appended to the log. */
  function Added(before: Room, after: Room): seq<Delivery>
    requires |before.log| <= |after.log|
  {
    after.log[|before.log|..]
  }

  // ---------------------------------------------------------------------------
  // The list queries

  /** A broadcast goes to a handler exactly when it is listed, running and not the excluded sender. */
  lemma {:induction false} RecipientsExactly(hs: seq<Handler>, cs: seq<HandlerId>, exclude: Option<HandlerId>, x: HandlerId)
    ensures x in Recipients(hs, cs, exclude) <==> x in cs && IsRunning(hs, x) && Some(x) != exclude
  {
    if cs != [] {
      var init := cs[..|cs| - 1];
      RecipientsExactly(hs, init, exclude, x);
      assert cs == init + [cs[|cs| - 1]];
    }
  }

  /** Broadcast recipients keep list order, so a list without repeats gives recipients without repeats. */
  lemma {:induction false} RecipientsDistinct(hs: seq<Handler>, cs: seq<HandlerId>, exclude: Option<HandlerId>)
    requires Distinct(cs)
    ensures Distinct(Recipients(hs, cs, exclude))
  {
    if cs != [] {
      var init := cs[..|cs| - 1];
      var last := cs[|cs| - 1];
      RecipientsDistinct(hs, init, exclude);
      RecipientsExactly(hs, init, exclude, last);
      assert last !in init;
    }
  }

  lemma ConsistentClientsDistinct(r: Room)
    requires Consistent(r)
    ensures Distinct(r.clients)
  {
  }

  /** The roster names every listed handler once: one distinct name per entry. */
  lemma {:induction false} RosterNamesUnique(r: Room)
    requires Consistent(r)
    ensures |Names(r.handlers, r.clients)| == |r.clients|
    ensures forall i, j :: 0 <= i < j < |r.clients| ==> Names(r.handlers, r.clients)[i] != Names(r.handlers, r.clients)[j]
  {
    NamesOfBound(r.handlers, r.clients);
  }

  lemma {:induction false} NamesOfBound(hs: seq<Handler>, cs: seq<HandlerId>)
    requires forall i :: 0 <= i < |cs| ==> UserOf(hs, cs[i]).Some?
    ensures |Names(hs, cs)| == |cs|
    ensures forall i :: 0 <= i < |cs| ==> Some(Names(hs, cs)[i]) == UserOf(hs, cs[i])
  {
    if cs != [] {
      var init := cs[..|cs| - 1];
      assert forall i :: 0 <= i < |init| ==> init[i] == cs[i];
      NamesOfBound(hs, init);
      var ns := Names(hs, cs);
      assert ns == Names(hs, init) + [UserOf(hs, cs[|cs| - 1]).value];
      forall i | 0 <= i < |cs|
        ensures Some(ns[i]) == UserOf(hs, cs[i])
      {
        if i < |init| {
          assert ns[i] == Names(hs, init)[i];
        }
      }
    }
  }

  /** The roster text grows by `name + ","` per appended name, as the StringBuilder loop appends. */
  lemma {:induction false} JoinRosterAppend(ns: seq<string>, n: string)
    ensures JoinRoster(ns + [n]) == JoinRoster(ns) + n + ","
  {
    if ns != [] {
      assert (ns + [n])[1..] == ns[1..] + [n];
      JoinRosterAppend(ns[1..], n);
    }
  }

  // ---------------------------------------------------------------------------
  // Broadcast and private delivery

  /** One more listed handler adds at most itself to the recipients. */
  lemma RecipientsSnoc(hs: seq<Handler>, cs: seq<HandlerId>, x: HandlerId, exclude: Option<HandlerId>)
    ensures Recipients(hs, cs + [x], exclude)
         == Recipients(hs, cs, exclude) + (if Some(x) != exclude && IsRunning(hs, x) then [x] else [])
  {
    assert (cs + [x])[..|cs|] == cs;
  }

  /** One more recipient adds one write at the end. */
  lemma DeliverSnoc(ids: seq<HandlerId>, x: HandlerId, m: Envelope)
    ensures Deliver(ids + [x], m) == Deliver(ids, m) + [Delivery(x, m)]
  {
    assert (ids + [x])[..|ids|] == ids;
  }

  /**
   * The broadcast loop after one more list entry, on top of the writes made
   * before it: one more write when the entry qualifies, none otherwise.
   */
  lemma BroadcastPrefix(prior: seq<Delivery>, hs: seq<Handler>, cs: seq<HandlerId>, i: nat,
                        exclude: Option<HandlerId>, m: Envelope)
    requires i < |cs|
    ensures Some(cs[i]) != exclude && IsRunning(hs, cs[i]) ==>
      prior + Deliver(Recipients(hs, cs[..i + 1], exclude), m)
        == prior + Deliver(Recipients(hs, cs[..i], exclude), m) + [Delivery(cs[i], m)]
    ensures !(Some(cs[i]) != exclude && IsRunning(hs, cs[i])) ==>
      prior + Deliver(Recipients(hs, cs[..i + 1], exclude), m)
        == prior + Deliver(Recipients(hs, cs[..i], exclude), m)
  {
    var before := Recipients(hs, cs[..i], exclude);
    assert cs[..i + 1] == cs[..i] + [cs[i]];
    RecipientsSnoc(hs, cs[..i], cs[i], exclude);
    if Some(cs[i]) != exclude && IsRunning(hs, cs[i]) {
      DeliverSnoc(before, cs[i], m);
      assert prior + (Deliver(before, m) + [Delivery(cs[i], m)]) == prior + Deliver(before, m) + [Delivery(cs[i], m)];
    } else {
      assert before + [] == before;
    }
  }

  /** The writes of `Deliver` are exactly `m` to each of `ids`. */
  lemma DeliverMembers(ids: seq<HandlerId>, m: Envelope)
    ensures forall d :: d in Deliver(ids, m) <==> d.msg == m && d.to in ids
  {
    var ds := Deliver(ids, m);
    forall d
      ensures d in ds <==> d.msg == m && d.to in ids
    {
      if d in ds {
        var k :| 0 <= k < |ds| && ds[k] == d;
        assert d == Delivery(ids[k], m);
      }
      if d.msg == m && d.to in ids {
        var k :| 0 <= k < |ids| && ids[k] == d.to;
        assert ds[k] == d;
      }
    }
  }

  /**
   * `broadcastMessage(m, s)` writes `m`, unchanged, once to each listed
   * running handler other than `s`, and to no one else; nothing but the log changes.
   */
  lemma BroadcastReachesExactly(r: Room, m: Envelope, exclude: Option<HandlerId>)
    requires Consistent(r)
    ensures var s := BroadcastStep(r, m, exclude);
      && s.handlers == r.handlers && s.clients == r.clients && |r.log| <= |s.log|
      && s.log[..|r.log|] == r.log
      && (forall d :: d in Added(r, s) <==>
            d.msg == m && d.to in r.clients && IsRunning(r.handlers, d.to) && Some(d.to) != exclude)
      && (forall a, b :: 0 <= a < b < |Added(r, s)| ==> Added(r, s)[a].to != Added(r, s)[b].to)
  {
    var s := BroadcastStep(r, m, exclude);
    var ids := Recipients(r.handlers, r.clients, exclude);
    var added := Deliver(ids, m);
    assert s.log == r.log + added;
    assert Added(r, s) == added;
    DeliverMembers(ids, m);
    forall x
      ensures x in ids <==> x in r.clients && IsRunning(r.handlers, x) && Some(x) != exclude
    {
      RecipientsExactly(r.handlers, r.clients, exclude, x);
    }
    ConsistentClientsDistinct(r);
    RecipientsDistinct(r.handlers, r.clients, exclude);
  }

  /**
   * `sendPrivateMessage`: with a running sender, the envelope reaches only the
   * first listed running handler of that name and the sender then gets the
   * confirmation; with no such handler only the sender hears back, that the
   * user is not online.
   */
  lemma PrivateReachesOnlyRecipient(r: Room, self: HandlerId, m: Envelope)
    requires IsRunning(r.handlers, self)
    ensures var s := PrivateStep(r, self, m);
      && s.handlers == r.handlers && s.clients == r.clients && |r.log| <= |s.log|
      && s.log[..|r.log|] == r.log
      && match FindRecipient(r.handlers, r.clients, m.recipient)
         case Some(c) => Added(r, s) == [Delivery(c, m), Delivery(self, PrivateSent(m.sender, m.recipient))]
         case None =>
           && Added(r, s) == [Delivery(self, NotOnline(m.sender, m.recipient))]
           && !exists i :: 0 <= i < |r.clients| && IsRunning(r.handlers, r.clients[i])
                && UserOf(r.handlers, r.clients[i]) == Some(m.recipient)
  {
  }

  // ---------------------------------------------------------------------------
  // Rename

  /** A listed handler's own name counts as taken. */
  lemma OwnNameIsTaken(r: Room, self: HandlerId)
    requires Consistent(r) && self in r.clients
    ensures self < |r.handlers| && r.handlers[self].user.Some?
    ensures Taken(r.handlers, r.clients, r.handlers[self].user.value)
  {
    var i :| 0 <= i < |r.clients| && r.clients[i] == self;
    assert UserOf(r.handlers, r.clients[i]).Some?;
  }

  /** A rename to a taken name changes no state and only tells the requester. */
  lemma RenameRefusedWhenTaken(r: Room, self: HandlerId, wanted: string)
    requires self < |r.handlers| && r.handlers[self].user.Some?
    requires Taken(r.handlers, r.clients, wanted)
    ensures var s := RenameStep(r, self, wanted);
      && s.handlers == r.handlers && s.clients == r.clients
      && s.log == r.log + (if r.handlers[self].running
                           then [Delivery(self, RenameRefused(r.handlers[self].user.value, wanted))]
                           else [])
  {
  }

  /**
   * A rename to a free name binds it, and the rename notice and then the new
   * roster go to every running listed handler, the requester included.
   */
  lemma RenameApplies(r: Room, self: HandlerId, wanted: string)
    requires Consistent(r) && self in r.clients
    requires !Taken(r.handlers, r.clients, wanted)
    ensures self < |r.handlers| && r.handlers[self].user.Some?
    ensures var s := RenameStep(r, self, wanted);
      var everyone := Recipients(s.handlers, s.clients, None);
      && s.handlers == r.handlers[self := Handler(Some(wanted), true)]
      && s.clients == r.clients
      && s.log == r.log + Deliver(everyone, Renamed(r.handlers[self].user.value, wanted))
                        + Deliver(everyone, RosterMessage(Names(s.handlers, s.clients)))
      && self in everyone
  {
    OwnNameIsTaken(r, self);
    var s := RenameStep(r, self, wanted);
    RecipientsExactly(s.handlers, s.clients, None, self);
  }

  /** After a rename to a free name the roster lists the new name and no longer the old one. */
  lemma RenameSwapsRosterName(r: Room, self: HandlerId, wanted: string)
    requires Consistent(r) && self in r.clients
    requires !Taken(r.handlers, r.clients, wanted)
    ensures self < |r.handlers| && r.handlers[self].user.Some?
    ensures var s := RenameStep(r, self, wanted);
      && wanted in Names(s.handlers, s.clients)
      && r.handlers[self].user.value !in Names(s.handlers, s.clients)
  {
    ReboundNames(r, self, wanted);
  }

  lemma RenameKeepsConsistent(r: Room, self: HandlerId, wanted: string)
    requires Consistent(r) && self in r.clients
    ensures self < |r.handlers| && r.handlers[self].user.Some?
    ensures Consistent(RenameStep(r, self, wanted))
  {
    OwnNameIsTaken(r, self);
    var s := RenameStep(r, self, wanted);
    if Taken(r.handlers, r.clients, wanted) {
      ConsistencyIgnoresLog(r, s);
    } else {
      var hs := r.handlers[self := Handler(Some(wanted), r.handlers[self].running)];
      ReboundNames(r, self, wanted);
      ConsistencyIgnoresLog(Room(hs, r.clients, []), s);
    }
  }

  /** The state a rename to a free name leaves: consistent, the new name taken, the old one free. */
  lemma ReboundNames(r: Room, self: HandlerId, wanted: string)
    requires Consistent(r) && self in r.clients
    requires !Taken(r.handlers, r.clients, wanted)
    ensures self < |r.handlers| && r.handlers[self].user.Some?
    ensures var hs := r.handlers[self := Handler(Some(wanted), r.handlers[self].running)];
      && Consistent(Room(hs, r.clients, []))
      && Taken(hs, r.clients, wanted)
      && !Taken(hs, r.clients, r.handlers[self].user.value)
  {
    var i :| 0 <= i < |r.clients| && r.clients[i] == self;
    assert UserOf(r.handlers, r.clients[i]).Some?;
    var hs := r.handlers[self := Handler(Some(wanted), r.handlers[self].running)];
    assert UniqueNames(r.handlers, r.clients);
    RebindKeepsUnique(r.handlers, hs, r.clients, self, wanted);
    assert UserOf(hs, r.clients[i]) == Some(wanted);
    NotListedIsFree(hs, r.clients, r.handlers[self].user.value);
  }

  predicate UniqueNames(hs: seq<Handler>, cs: seq<HandlerId>) {
    forall i, j :: 0 <= i < j < |cs| ==> UserOf(hs, cs[i]) != UserOf(hs, cs[j])
  }

  /** Rebinding a listed handler to a name no listed handler has keeps names unique and drops the old name. */
  lemma RebindKeepsUnique(hs: seq<Handler>, hs': seq<Handler>, cs: seq<HandlerId>, x: HandlerId, wanted: string)
    requires UniqueNames(hs, cs) && x in cs
    requires forall i :: 0 <= i < |cs| ==> UserOf(hs, cs[i]) != Some(wanted)
    requires UserOf(hs', x) == Some(wanted)
    requires forall h :: h != x ==> UserOf(hs', h) == UserOf(hs, h)
    ensures UniqueNames(hs', cs)
    ensures forall i :: 0 <= i < |cs| ==> UserOf(hs', cs[i]) != UserOf(hs, x)
  {
    var k :| 0 <= k < |cs| && cs[k] == x;
    forall i | 0 <= i < |cs|
      ensures UserOf(hs', cs[i]) != UserOf(hs, x)
    {
      if cs[i] != x {
        assert i != k;
        assert UserOf(hs, cs[i]) != UserOf(hs, cs[k]);
      }
    }
    forall i, j | 0 <= i < j < |cs|
      ensures UserOf(hs', cs[i]) != UserOf(hs', cs[j])
    {
      if cs[i] == x {
        assert UserOf(hs, cs[j]) != Some(wanted);
      } else if cs[j] == x {
        assert UserOf(hs, cs[i]) != Some(wanted);
      }
    }
  }

  /** Removing a listed handler keeps names unique and leaves nobody listed under its name. */
  lemma RemoveKeepsUnique(hs: seq<Handler>, hs': seq<Handler>, cs: seq<HandlerId>, x: HandlerId)
    requires UniqueNames(hs, cs) && Distinct(cs) && x in cs
    requires forall h :: h != x ==> UserOf(hs', h) == UserOf(hs, h)
    ensures UniqueNames(hs', Remove(cs, x))
    ensures forall i :: 0 <= i < |Remove(cs, x)| ==> UserOf(hs', Remove(cs, x)[i]) != UserOf(hs, x)
  {
    RemoveShape(cs, x);
    var k := IndexOf(cs, x);
    var rest := Remove(cs, x);
    SkipIndex(cs, k, rest);
    forall i, j | 0 <= i < j < |rest|
      ensures UserOf(hs', rest[i]) != UserOf(hs', rest[j])
    {
      assert UserOf(hs, cs[if i < k then i else i + 1]) != UserOf(hs, cs[if j < k then j else j + 1]);
    }
    forall i | 0 <= i < |rest|
      ensures UserOf(hs', rest[i]) != UserOf(hs, x)
    {
      var i' := if i < k then i else i + 1;
      assert UserOf(hs, cs[i']) != UserOf(hs, cs[k]) by {
        assert i' < k || k < i';
      }
    }
  }

  lemma CloseShape(r: Room, self: HandlerId)
    requires self < |r.handlers|
    ensures CloseStep(r, self).handlers == r.handlers[self := r.handlers[self].(running := false)]
    ensures CloseStep(r, self).clients == if r.handlers[self].user.Some? then Remove(r.clients, self) else r.clients
  {
  }

  lemma RemoveShape(cs: seq<HandlerId>, x: HandlerId)
    requires Distinct(cs) && x in cs
    ensures var k := IndexOf(cs, x);
      && 0 <= k < |cs| && cs[k] == x
      && Remove(cs, x) == cs[..k] + cs[k + 1..]
      && (forall y :: y in Remove(cs, x) <==> y in cs && y != x)
  {
    var k := IndexOf(cs, x);
    var rest := cs[..k] + cs[k + 1..];
    SkipIndex(cs, k, rest);
    forall y
      ensures y in rest <==> y in cs && y != x
    {
      if y in rest {
        var i :| 0 <= i < |rest| && rest[i] == y;
        assert cs[if i < k then i else i + 1] == y;
      }
      if y in cs && y != x {
        var i :| 0 <= i < |cs| && cs[i] == y;
        assert i != k;
        assert rest[if i < k then i else i - 1] == y;
      }
    }
  }

  /** Dropping position `k`: later entries move down by one. */
  lemma SkipIndex<T>(cs: seq<T>, k: int, rest: seq<T>)
    requires 0 <= k < |cs| && rest == cs[..k] + cs[k + 1..]
    ensures |rest| == |cs| - 1
    ensures forall i :: 0 <= i < k ==> rest[i] == cs[i]
    ensures forall i :: k <= i < |rest| ==> rest[i] == cs[i + 1]
  {
  }

  /**
   * `closeConnection` of a registered handler: it stops running and leaves the
   * list, and the leave notice and then the new roster go to the remaining
   * running handlers.
   */
  lemma CloseUnregisters(r: Room, self: HandlerId)
    requires Consistent(r) && self in r.clients
    ensures self < |r.handlers| && r.handlers[self].user.Some?
    ensures var s := CloseStep(r, self);
      var u := r.handlers[self].user.value;
      var rest := Recipients(s.handlers, s.clients, None);
      && s.handlers == r.handlers[self := Handler(Some(u), false)]
      && (forall y :: y in s.clients <==> y in r.clients && y != self)
      && s.log == r.log + Deliver(rest, Left(u)) + Deliver(rest, RosterMessage(Names(s.handlers, s.clients)))
  {
    OwnNameIsTaken(r, self);
    ConsistentClientsDistinct(r);
    RemoveShape(r.clients, self);
  }

  /** Once a registered handler is closed, no listed handler has its name: the name can be taken again. */
  lemma CloseFreesName(r: Room, self: HandlerId)
    requires Consistent(r) && self in r.clients
    ensures self < |r.handlers| && r.handlers[self].user.Some?
    ensures !Taken(CloseStep(r, self).handlers, CloseStep(r, self).clients, r.handlers[self].user.value)
  {
    RemovedNameIsFree(r, self);
    CloseShape(r, self);
  }

  lemma RemovedNameIsFree(r: Room, self: HandlerId)
    requires Consistent(r) && self in r.clients
    ensures self < |r.handlers| && r.handlers[self].user.Some?
    ensures !Taken(r.handlers[self := Handler(r.handlers[self].user, false)], Remove(r.clients, self), r.handlers[self].user.value)
  {
    var i :| 0 <= i < |r.clients| && r.clients[i] == self;
    assert UserOf(r.handlers, r.clients[i]).Some?;
    ConsistentClientsDistinct(r);
    assert UniqueNames(r.handlers, r.clients);
    var hs := r.handlers[self := Handler(r.handlers[self].user, false)];
    RemoveKeepsUnique(r.handlers, hs, r.clients, self);
    NotListedIsFree(hs, Remove(r.clients, self), r.handlers[self].user.value);
  }

  lemma NotListedIsFree(hs: seq<Handler>, cs: seq<HandlerId>, n: string)
    requires forall i :: 0 <= i < |cs| ==> UserOf(hs, cs[i]) != Some(n)
    ensures !Taken(hs, cs, n)
  {
  }

  /**
   * A second `closeConnection` (DISCONNECT followed by `finally`) leaves the
   * list as it is but sends the leave notice and the roster once more.
   */
  lemma CloseTwiceRepeatsNotice(r: Room, self: HandlerId)
    requires Consistent(r) && self in r.clients
    ensures self < |r.handlers| && r.handlers[self].user.Some?
    ensures var once := CloseStep(r, self);
      var twice := CloseStep(once, self);
      var u := r.handlers[self].user.value;
      var rest := Recipients(once.handlers, once.clients, None);
      && twice.handlers == once.handlers && twice.clients == once.clients
      && twice.log == once.log + Deliver(rest, Left(u)) + Deliver(rest, RosterMessage(Names(once.handlers, once.clients)))
  {
    CloseUnregisters(r, self);
  }

  /** `closeConnection` of a handler that never bound a user only clears `running`. */
  lemma CloseUnboundIsQuiet(r: Room, self: HandlerId)
    requires self < |r.handlers| && r.handlers[self].user.None?
    ensures CloseStep(r, self) == r.(handlers := r.handlers[self := Handler(None, false)])
  {
  }

  lemma CloseKeepsConsistent(r: Room, self: HandlerId)
    requires Consistent(r) && self < |r.handlers|
    ensures Consistent(CloseStep(r, self))
  {
    CloseShape(r, self);
    var hs := r.handlers[self := r.handlers[self].(running := false)];
    var cs := if r.handlers[self].user.Some? then Remove(r.clients, self) else r.clients;
    ClosedListConsistent(r, self, hs, cs);
    ConsistencyIgnoresLog(Room(hs, cs, []), CloseStep(r, self));
  }

  lemma ClosedListConsistent(r: Room, self: HandlerId, hs: seq<Handler>, cs: seq<HandlerId>)
    requires Consistent(r) && self < |r.handlers|
    requires hs == r.handlers[self := r.handlers[self].(running := false)]
    requires cs == if r.handlers[self].user.Some? then Remove(r.clients, self) else r.clients
    ensures Consistent(Room(hs, cs, []))
  {
    if self in r.clients {
      OwnNameIsTaken(r, self);
      RemovedListConsistent(r, self, hs);
    } else {
      UnlistedStopConsistent(r, self, hs, cs);
    }
  }

  /** Stopping a listed handler and removing it from the list keeps the invariant. */
  lemma RemovedListConsistent(r: Room, self: HandlerId, hs: seq<Handler>)
    requires Consistent(r) && self in r.clients && self < |r.handlers|
    requires hs == r.handlers[self := r.handlers[self].(running := false)]
    ensures Consistent(Room(hs, Remove(r.clients, self), []))
  {
    var cs := Remove(r.clients, self);
    ConsistentClientsDistinct(r);
    RemoveShape(r.clients, self);
    RemoveKeepsUnique(r.handlers, hs, r.clients, self);
    forall i | 0 <= i < |cs|
      ensures IsRunning(hs, cs[i]) && UserOf(hs, cs[i]).Some?
    {
      assert cs[i] in r.clients && cs[i] != self;
      var j :| 0 <= j < |r.clients| && r.clients[j] == cs[i];
    }
    forall h: HandlerId | h < |hs| && hs[h].user.Some? && hs[h].running
      ensures h in cs
    {
      assert h != self && h in r.clients;
    }
  }

  /** Stopping a handler that is not listed keeps the invariant. */
  lemma UnlistedStopConsistent(r: Room, self: HandlerId, hs: seq<Handler>, cs: seq<HandlerId>)
    requires Consistent(r) && self !in r.clients && self < |r.handlers|
    requires hs == r.handlers[self := r.handlers[self].(running := false)]
    requires cs == r.clients
    ensures Consistent(Room(hs, cs, []))
  {
    assert forall i :: 0 <= i < |cs| ==> cs[i] != self;
  }

  /** `Consistent` is about the handlers and the list, not the log. */
  lemma ConsistencyIgnoresLog(t: Room, s: Room)
    requires Consistent(t) && s.handlers == t.handlers && s.clients == t.clients
    ensures Consistent(s)
  {
  }

  // ---------------------------------------------------------------------------
  // Handshake

  /** A first envelope that is not CONNECT registers nothing and writes nothing. */
  lemma HandshakeIgnoresOthers(r: Room, self: HandlerId, first: Option<Envelope>)
    requires self < |r.handlers|
    requires first.None? || first.value.kind != Connect
    ensures HandshakeStep(r, self, first) == r
  {
  }

  /**
   * A CONNECT for a taken name: the newcomer gets exactly one PRIVATE refusal
   * from "Server" and stops; the list and everyone else's streams are untouched.
   */
  lemma HandshakeRejectsTaken(r: Room, self: HandlerId, first: Option<Envelope>)
    requires Fresh(r, self)
    requires first.Some? && first.value.kind == Connect
    requires Taken(r.handlers, r.clients, first.value.content)
    ensures var s := HandshakeStep(r, self, first);
      && s.clients == r.clients
      && s.handlers == r.handlers[self := Handler(None, false)]
      && s.log == r.log + [Delivery(self, Rejection(first.value.content))]
  {
  }

  /**
   * A CONNECT for a free name: the newcomer is appended to the list under that
   * name and gets the confirmation; every other running listed handler gets
   * the join notice; then every running listed handler, newcomer included,
   * gets the roster.
   */
  lemma HandshakeAdmitsFree(r: Room, self: HandlerId, first: Option<Envelope>)
    requires Fresh(r, self) && Accepts(r, first)
    ensures var s := HandshakeStep(r, self, first);
      var name := first.value.content;
      && s.clients == r.clients + [self]
      && s.handlers == r.handlers[self := Handler(Some(name), true)]
      && s.log == r.log + [Delivery(self, Welcome(name))]
                        + Deliver(Recipients(s.handlers, s.clients, Some(self)), Joined(name))
                        + Deliver(Recipients(s.handlers, s.clients, None), RosterMessage(Names(s.handlers, s.clients)))
      && self !in Recipients(s.handlers, s.clients, Some(self))
      && self in Recipients(s.handlers, s.clients, None)
  {
    var s := HandshakeStep(r, self, first);
    RecipientsExactly(s.handlers, s.clients, Some(self), self);
    RecipientsExactly(s.handlers, s.clients, None, self);
  }

  /** The roster an admitted newcomer triggers is the previous roster plus its name. */
  lemma HandshakeExtendsRoster(r: Room, self: HandlerId, first: Option<Envelope>)
    requires Consistent(r) && Fresh(r, self) && Accepts(r, first)
    ensures var s := HandshakeStep(r, self, first);
      Names(s.handlers, s.clients) == Names(r.handlers, r.clients) + [first.value.content]
  {
    var s := HandshakeStep(r, self, first);
    assert self !in r.clients;
    assert s.clients[..|s.clients| - 1] == r.clients;
    NamesUnchangedOff(r.handlers, s.handlers, r.clients, self);
  }

  /** Names of a list are unaffected by changes to a handler not in it. */
  lemma {:induction false} NamesUnchangedOff(hs: seq<Handler>, hs': seq<Handler>, cs: seq<HandlerId>, self: HandlerId)
    requires self !in cs
    requires forall h :: h != self ==> UserOf(hs, h) == UserOf(hs', h)
    ensures Names(hs', cs) == Names(hs, cs)
  {
    if cs != [] {
      NamesUnchangedOff(hs, hs', cs[..|cs| - 1], self);
    }
  }

  lemma HandshakeKeepsConsistent(r: Room, self: HandlerId, first: Option<Envelope>)
    requires Consistent(r) && Fresh(r, self)
    ensures Consistent(HandshakeStep(r, self, first))
  {
    var s := HandshakeStep(r, self, first);
    if first.Some? && first.value.kind == Connect {
      var name := first.value.content;
      if Taken(r.handlers, r.clients, name) {
        RejectKeepsConsistent(r, self, name);
        assert s == CloseStep(Send(r, self, Rejection(name)), self);
      } else {
        var hs := r.handlers[self := Handler(Some(name), true)];
        var cs := r.clients + [self];
        AdmitShape(r, self, first);
        AdmittedListConsistent(r, self, name, hs, cs);
        ConsistencyIgnoresLog(Room(hs, cs, []), s);
      }
    }
  }

  lemma RejectKeepsConsistent(r: Room, self: HandlerId, name: string)
    requires Consistent(r) && self < |r.handlers|
    ensures Consistent(CloseStep(Send(r, self, Rejection(name)), self))
  {
    var sent := Send(r, self, Rejection(name));
    ConsistencyIgnoresLog(r, sent);
    CloseKeepsConsistent(sent, self);
  }

  lemma AdmitShape(r: Room, self: HandlerId, first: Option<Envelope>)
    requires Fresh(r, self) && Accepts(r, first)
    ensures HandshakeStep(r, self, first).handlers == r.handlers[self := Handler(Some(first.value.content), true)]
    ensures HandshakeStep(r, self, first).clients == r.clients + [self]
  {
  }

  lemma AdmittedListConsistent(r: Room, self: HandlerId, name: string, hs: seq<Handler>, cs: seq<HandlerId>)
    requires Consistent(r) && Fresh(r, self) && !Taken(r.handlers, r.clients, name)
    requires hs == r.handlers[self := Handler(Some(name), true)] && cs == r.clients + [self]
    ensures Consistent(Room(hs, cs, []))
  {
    assert self !in r.clients;
    var n := |r.clients|;
    forall i | 0 <= i < |cs|
      ensures IsRunning(hs, cs[i]) && UserOf(hs, cs[i]).Some?
    {
      if i < n {
        assert cs[i] == r.clients[i];
      }
    }
    forall i, j | 0 <= i < j < |cs|
      ensures UserOf(hs, cs[i]) != UserOf(hs, cs[j])
    {
      assert cs[i] == r.clients[i] && r.clients[i] != self;
      if j == n {
        assert UserOf(r.handlers, r.clients[i]) != Some(name);
      } else {
        assert cs[j] == r.clients[j];
      }
    }
    forall h: HandlerId | h < |hs| && hs[h].user.Some? && hs[h].running
      ensures h in cs
    {
      if h != self {
        assert h in r.clients;
      }
    }
  }

  // ---------------------------------------------------------------------------
  // A whole connection

  lemma HandleKeepsConsistent(r: Room, self: HandlerId, m: Envelope)
    requires Consistent(r) && self in r.clients
    ensures self < |r.handlers| && r.handlers[self].user.Some?
    ensures Consistent(HandleStep(r, self, m))
  {
    OwnNameIsTaken(r, self);
    var s := HandleStep(r, self, m);
    match m.kind
    case UsernameUpdate =>
      assert s == RenameStep(r, self, m.content);
      RenameKeepsConsistent(r, self, m.content);
    case Disconnect =>
      assert s == CloseStep(r, self);
      CloseKeepsConsistent(r, self);
    case Broadcast =>
      assert s == BroadcastStep(r, m, Some(self));
      ConsistencyIgnoresLog(r, s);
    case Private =>
      assert s == PrivateStep(r, self, m);
      ConsistencyIgnoresLog(r, s);
    case _ =>
      assert s == r;
  }

  lemma {:induction false} ServeKeepsConsistent(r: Room, self: HandlerId, inbound: seq<Option<Envelope>>)
    requires Consistent(r) && self < |r.handlers| && r.handlers[self].user.Some?
    ensures Consistent(Serve(r, self, inbound))
    decreases |inbound|
  {
    if inbound != [] && r.handlers[self].running {
      assert self in r.clients;
      var next := if inbound[0].Some? then HandleStep(r, self, inbound[0].value) else r;
      if inbound[0].Some? {
        HandleKeepsConsistent(r, self, inbound[0].value);
      }
      ServeKeepsConsistent(next, self, inbound[1..]);
    }
  }

  /**
   * Whatever a fresh handler reads, once `run` returns the handler is stopped
   * and unlisted, so its name (if it had one) is free again, and the
   * invariant still holds.
   */
  lemma RunEndsClosed(r: Room, self: HandlerId, inbound: seq<Option<Envelope>>)
    requires Consistent(r) && Fresh(r, self)
    ensures var s := RunSpec(r, self, inbound);
      && Consistent(s) && self < |s.handlers|
      && !s.handlers[self].running && self !in s.clients
  {
    var before: Room;
    if inbound == [] {
      before := r;
    } else {
      var greeted := HandshakeStep(r, self, inbound[0]);
      HandshakeKeepsConsistent(r, self, inbound[0]);
      if Accepts(r, inbound[0]) {
        ServeKeepsConsistent(greeted, self, inbound[1..]);
        before := Serve(greeted, self, inbound[1..]);
      } else {
        before := greeted;
      }
    }
    assert self < |before.handlers|;
    assert Consistent(before);
    CloseKeepsConsistent(before, self);
    ClosedIsUnlisted(before, self);
  }

  lemma ClosedIsUnlisted(r: Room, self: HandlerId)
    requires Consistent(r) && self < |r.handlers|
    ensures !CloseStep(r, self).handlers[self].running && self !in CloseStep(r, self).clients
  {
    if self in r.clients {
      CloseUnregisters(r, self);
    }
  }
}
