/**
 * How the two ends fit together: the roster string the server builds
 * (src/ClientHandler.java) and the list the client parses from it
 * (src/Client.java), the name the client's CONNECT asks for, and what a
 * typed line becomes at the other clients.
 */
module Protocol {
  import opened Options
  import opened JavaStrings
  import opened Envelopes
  import opened Routing
  import opened RoutingLaws
  import opened ChatClient

  /** The roster text is the names joined by commas, with an empty last piece after the final comma. */
  lemma {:induction false} RosterIsJoin(ns: seq<string>)
    ensures JoinRoster(ns) == JoinWith(ns + [""], ',')
  {
    if ns != [] {
      var parts := ns + [""];
      assert parts[0] == ns[0] && parts[1..] == ns[1..] + [""];
      RosterIsJoin(ns[1..]);
    }
  }

  /** Well-formed names pass the client's filter unchanged. */
  lemma {:induction false} KeepWellFormed(ns: seq<string>)
    requires WellFormedNames(ns)
    ensures KeepNames(ns) == ns
  {
    if ns != [] {
      var init := ns[..|ns| - 1];
      KeepWellFormed(init);
      assert ns == init + [ns[|ns| - 1]];
    }
  }

  lemma DropOneEmpty(ns: seq<string>)
    requires ns == [] || ns[|ns| - 1] != []
    ensures DropTrailingEmpty(ns + [""]) == ns
  {
    assert (ns + [""])[..|ns|] == ns;
  }

  /** `split(",")` of a non-empty roster string gives back the names. */
  lemma SplitRoster(ns: seq<string>)
    requires ns != [] && ns[|ns| - 1] != []
    requires forall i :: 0 <= i < |ns| ==> ',' !in ns[i]
    ensures JavaSplit(JoinRoster(ns), ',') == ns
  {
    var s := JoinRoster(ns);
    assert s == ns[0] + "," + JoinRoster(ns[1..]);
    assert s[|ns[0]|] == ',';
    RosterIsJoin(ns);
    SplitAllJoin(ns + [""], ',');
    DropOneEmpty(ns);
  }

  /**
   * The roster round trip: the client's list, parsed from the string the
   * server builds, is the server's list of names, in order, as long as every
   * name is non-empty, already trimmed and comma-free.
   */
  lemma RosterRoundTrip(ns: seq<string>)
    requires WellFormedNames(ns)
    ensures ParseUserList(Some(JoinRoster(ns))) == ns
  {
    if ns != [] {
      RosterNotEmpty(ns);
      SplitRoster(ns);
      KeepWellFormed(ns);
      ParseSplit(JoinRoster(ns), ns);
    }
  }

  lemma RosterNotEmpty(ns: seq<string>)
    requires ns != []
    ensures JoinRoster(ns) != []
  {
    assert JoinRoster(ns) == ns[0] + "," + JoinRoster(ns[1..]);
  }

  lemma ParseSplit(s: string, ns: seq<string>)
    requires s != [] && JavaSplit(s, ',') == ns && KeepNames(ns) == ns
    ensures ParseUserList(Some(s)) == ns
  {
  }

  /**
   * Why the round trip needs comma-free names: the server accepts "a,b" as a
   * username, and every client then lists two users "a" and "b".
   */
  lemma CommaInNameSplitsRosterEntry()
    ensures ParseUserList(Some(JoinRoster(["a,b"]))) == ["a", "b"]
  {
    assert JoinRoster(["a,b"]) == JoinRoster(["a", "b"]);
    assert Trim("a") == "a" && Trim("b") == "b";
    RosterRoundTrip(["a", "b"]);
  }

  /**
   * The list every client shows after a roster message is exactly the server's
   * registered names, one per registered handler, when those names are
   * well-formed.
   */
  lemma ClientsSeeRegisteredNames(r: Room)
    requires Consistent(r)
    requires WellFormedNames(Names(r.handlers, r.clients))
    ensures var shown := ParseUserList(Some(RosterMessage(Names(r.handlers, r.clients)).content));
      shown == Names(r.handlers, r.clients) && |shown| == |r.clients|
  {
    RosterRoundTrip(Names(r.handlers, r.clients));
    RosterNamesUnique(r);
  }

  /** The client's CONNECT asks for the typed name: the server admits it exactly when no listed handler has it. */
  lemma ConnectRequestsTypedName(r: Room, u: string)
    ensures Accepts(r, Some(ConnectEnvelope(u))) <==> !Taken(r.handlers, r.clients, u)
  {
  }

  /**
   * A public line typed by a registered client reaches every other running
   * registered client, sender name and trimmed text intact, as an incoming
   * public bubble.
   */
  lemma TypedBroadcastArrives(r: Room, self: HandlerId, field: string, x: HandlerId)
    requires Consistent(r) && self in r.clients
    requires !IsBlank(field) && Trim(field)[0] != '@'
    requires x in r.clients && x != self
    ensures self < |r.handlers| && r.handlers[self].user.Some?
    ensures var d := ParseInput(r.handlers[self].user.value, field);
      && d.Ready? && d.msg.kind == Broadcast
      && var s := HandleStep(r, self, d.msg);
      && |r.log| <= |s.log|
      && Delivery(x, d.msg) in Added(r, s)
      && Delivery(self, d.msg) !in Added(r, s)
      && Dispatch(d.msg) == Show(Bubble(r.handlers[self].user.value, Trim(field), false, false))
  {
    OwnNameIsTaken(r, self);
    var d := ParseInput(r.handlers[self].user.value, field);
    BroadcastReachesExactly(r, d.msg, Some(self));
  }

  /**
   * Double-clicking `u` and typing `m` sends `m` to the first running listed
   * handler named `u`, which shows it as an incoming private bubble from the
   * sender; the sender alone gets the confirmation.
   */
  lemma PrefilledPrivateArrives(r: Room, self: HandlerId, u: string, m: string)
    requires Consistent(r) && self in r.clients
    requires u != [] && ' ' !in u
    requires m != [] && !IsTrimmable(m[|m| - 1])
    requires Taken(r.handlers, r.clients, u)
    ensures self < |r.handlers| && r.handlers[self].user.Some?
    ensures var me := r.handlers[self].user.value;
      var e := Envelope(me, u, m, Private);
      && ParseInput(me, Prefill(u) + m) == Ready(e)
      && var s := HandleStep(r, self, e);
      && |r.log| <= |s.log|
      && Dispatch(e) == Show(Bubble(me, m, false, true))
      && (exists c :: UserOf(r.handlers, c) == Some(u)
           && Added(r, s) == [Delivery(c, e), Delivery(self, PrivateSent(me, u))])
  {
    OwnNameIsTaken(r, self);
    var me := r.handlers[self].user.value;
    PrefillRoundTrip(me, u, m);
    PrivateToListedNameArrives(r, self, Envelope(me, u, m, Private));
  }

  /** A private envelope to a listed name reaches a handler of that name, then the sender's confirmation. */
  lemma PrivateToListedNameArrives(r: Room, self: HandlerId, e: Envelope)
    requires Consistent(r) && self in r.clients
    requires e.kind == Private && Taken(r.handlers, r.clients, e.recipient)
    ensures self < |r.handlers| && r.handlers[self].user.Some?
    ensures var s := HandleStep(r, self, e);
      && |r.log| <= |s.log|
      && (exists c :: UserOf(r.handlers, c) == Some(e.recipient)
           && Added(r, s) == [Delivery(c, e), Delivery(self, PrivateSent(e.sender, e.recipient))])
  {
    OwnNameIsTaken(r, self);
    var i :| 0 <= i < |r.clients| && UserOf(r.handlers, r.clients[i]) == Some(e.recipient);
    assert IsRunning(r.handlers, r.clients[i]);
    PrivateReachesOnlyRecipient(r, self, e);
    var c := FindRecipient(r.handlers, r.clients, e.recipient).value;
    assert UserOf(r.handlers, c) == Some(e.recipient);
  }
}
