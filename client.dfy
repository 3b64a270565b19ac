/**
 * The chat client (src/Client.java) without its Swing surface: what the text
 * field turns into on Send, how the roster string becomes the user list, how
 * an incoming envelope is dispatched, and the envelopes written on connect
 * and disconnect. The window is reduced to the state those steps change: the
 * text field, the user list and its count, and the lines of the chat area.
 */
module ChatClient {
  import opened Options
  import opened JavaStrings
  import opened Envelopes

  const AllRecipients: string := "all"
  const ServerAddress: string := "server"

  // ---------------------------------------------------------------------------
  // The Send parse

  /** What `sendMessage` makes of the text field. */
  datatype Draft =
    | Blank                 // empty after trim: nothing happens
    | Malformed             // "@..." without a recipient: the error dialog
    | Ready(msg: Envelope)  // the envelope written to the server

  /**
   * The parse in `sendMessage`: the trimmed text is private when it starts
   * with '@' and its first space comes after at least one recipient char,
   * malformed when it starts with '@' otherwise, and a broadcast to "all"
   * when it does not start with '@'.
   */
  function ParseInput(username: string, field: string): (d: Draft)
    ensures d.Blank? <==> IsBlank(field)
    ensures d.Malformed? <==>
      && !IsBlank(field) && Trim(field)[0] == '@'
      && (' ' !in Trim(field) || (|Trim(field)| > 1 && Trim(field)[1] == ' '))
    ensures d.Ready? ==> d.msg.sender == username && (d.msg.kind == Private <==> Trim(field)[0] == '@')
    ensures d.Ready? && d.msg.kind == Private ==>
      && d.msg.recipient != [] && ' ' !in d.msg.recipient && d.msg.content != []
      && "@" + d.msg.recipient + " " + d.msg.content == Trim(field)
    ensures d.Ready? && d.msg.kind != Private ==>
      d.msg.kind == Broadcast && d.msg.recipient == AllRecipients && d.msg.content == Trim(field)
  {
    var text := Trim(field);
    if text == [] then Blank
    else if text[0] == '@' then
      var k := IndexOf(text, ' ');
      if k > 1 then
        SplitAtFirstSpace(text, k);
        Ready(Envelope(username, text[1..k], text[k + 1..], Private))
      else Malformed
    else Ready(Envelope(username, AllRecipients, text, Broadcast))
  }

  /**
   * Cutting a trimmed "@..." text at its first space, found past position 1,
   * gives a space-free recipient and a non-empty rest.
   */
  lemma SplitAtFirstSpace(text: string, k: int)
    requires text != [] && text[0] == '@' && !IsTrimmable(text[|text| - 1])
    requires k == IndexOf(text, ' ') && k > 1
    ensures ' ' !in text[1..k] && text[k + 1..] != []
    ensures text == "@" + text[1..k] + " " + text[k + 1..]
  {
    assert k != |text| - 1 by {
      assert IsTrimmable(text[k]);
    }
    NoSpaceAfterFirst(text, k);
    Reassemble(text, k);
  }

  lemma NoSpaceAfterFirst(text: string, k: int)
    requires 1 <= k <= |text| && ' ' !in text[..k]
    ensures ' ' !in text[1..k]
  {
    forall c | c in text[1..k]
      ensures c != ' '
    {
      var i :| 0 <= i < k - 1 && text[1..k][i] == c;
      assert text[..k][i + 1] == c;
    }
  }

  lemma Reassemble(text: string, k: int)
    requires 1 <= k < |text| && text[0] == '@' && text[k] == ' '
    ensures text == "@" + text[1..k] + " " + text[k + 1..]
  {
    assert text[..1] == "@" && text[k..k + 1] == " ";
    assert text == text[..1] + text[1..k] + text[k..k + 1] + text[k + 1..];
  }

  /** The double-click prefill of the text field for a private message to `u`. */
  function Prefill(u: string): (text: string)
    ensures |text| == |u| + 2 && text[0] == '@' && text[|text| - 1] == ' '
    ensures text[1..|text| - 1] == u
  {
    "@" + u + " "
  }

  /**
   * Typing a message after the prefill for `u` sends it privately to `u`,
   * unchanged, provided `u` has no space and the message does not end in
   * whitespace that `trim` would drop.
   */
  lemma PrefillRoundTrip(me: string, u: string, m: string)
    requires u != [] && ' ' !in u
    requires m != [] && !IsTrimmable(m[|m| - 1])
    ensures ParseInput(me, Prefill(u) + m) == Ready(Envelope(me, u, m, Private))
  {
    var field := Prefill(u) + m;
    assert field[0] == '@' && field[|field| - 1] == m[|m| - 1];
    assert Trim(field) == field;
    var k := IndexOf(field, ' ');
    assert field[|u| + 1] == ' ';
    assert forall i :: 0 <= i <= |u| ==> field[i] != ' ';
    assert k == |u| + 1;
    assert field[1..k] == u;
    assert field[k + 1..] == m;
  }

  // ---------------------------------------------------------------------------
  // The roster parse

  /** A name the roster string carries faithfully: non-empty, already trimmed, comma-free. */
  predicate WellFormedName(n: string) {
    n != [] && Trim(n) == n && ',' !in n
  }

  /** Every name of the list is well-formed. */
  predicate WellFormedNames(ns: seq<string>) {
    forall i :: 0 <= i < |ns| ==> WellFormedName(ns[i])
  }

  /** The loop of `updateUserList`: the trimmed non-blank parts, in order. */
  function KeepNames(parts: seq<string>): (names: seq<string>)
    ensures |names| <= |parts|
  {
    if parts == [] then []
    else
      var last := parts[|parts| - 1];
      var init := KeepNames(parts[..|parts| - 1]);
      if IsBlank(last) then init else init + [Trim(last)]
  }

  /** Part `p` contributes the name `n` to the user list. */
  predicate Yields(p: string, n: string) {
    !IsBlank(p) && n == Trim(p)
  }

  /** The kept names are exactly the names the parts yield. */
  lemma {:induction false} KeepNamesExactly(parts: seq<string>, n: string)
    ensures n in KeepNames(parts) <==> exists i :: 0 <= i < |parts| && Yields(parts[i], n)
  {
    if parts != [] {
      var front := parts[..|parts| - 1];
      var last := parts[|parts| - 1];
      KeepNamesExactly(front, n);
      assert n in KeepNames(parts) <==> n in KeepNames(front) || Yields(last, n);
      ExistsSnoc(parts, front, p => Yields(p, n));
    }
  }

  /** Some entry of a non-empty sequence satisfies `p` iff one before the last does or the last does. */
  lemma ExistsSnoc<T>(xs: seq<T>, front: seq<T>, p: T -> bool)
    requires xs != [] && front == xs[..|xs| - 1]
    ensures (exists i :: 0 <= i < |xs| && p(xs[i]))
        <==> (exists i :: 0 <= i < |front| && p(front[i])) || p(xs[|xs| - 1])
  {
    if exists i :: 0 <= i < |front| && p(front[i]) {
      var i :| 0 <= i < |front| && p(front[i]);
      assert xs[i] == front[i];
    }
  }

  /** A non-blank, comma-free part, once trimmed, is a well-formed name. */
  lemma TrimmedPartIsName(part: string)
    requires !IsBlank(part) && ',' !in part
    ensures WellFormedName(Trim(part))
  {
    TrimKeepsChars(part);
  }

  /** Comma-free parts leave only well-formed names after the filter. */
  lemma {:induction false} KeptNamesAreWellFormed(parts: seq<string>)
    requires forall i :: 0 <= i < |parts| ==> ',' !in parts[i]
    ensures WellFormedNames(KeepNames(parts))
  {
    if parts != [] {
      var last := parts[|parts| - 1];
      var front := parts[..|parts| - 1];
      forall i | 0 <= i < |front|
        ensures ',' !in front[i]
      {
        assert front[i] == parts[i];
      }
      KeptNamesAreWellFormed(front);
      if !IsBlank(last) {
        TrimmedPartIsName(last);
        AppendName(KeepNames(front), Trim(last));
      }
    }
  }

  lemma AppendName(ns: seq<string>, n: string)
    requires WellFormedNames(ns) && WellFormedName(n)
    ensures WellFormedNames(ns + [n])
  {
    forall i | 0 <= i < |ns| + 1
      ensures WellFormedName((ns + [n])[i])
    {
      if i < |ns| {
        assert (ns + [n])[i] == ns[i];
      }
    }
  }

  /** The `updateUserList` loop after one more part: the part, trimmed, unless it is blank. */
  lemma KeepNamesPrefix(parts: seq<string>, i: nat)
    requires i < |parts|
    ensures IsBlank(parts[i]) ==> KeepNames(parts[..i + 1]) == KeepNames(parts[..i])
    ensures !IsBlank(parts[i]) ==> KeepNames(parts[..i + 1]) == KeepNames(parts[..i]) + [Trim(parts[i])]
  {
    assert parts[..i + 1][..i] == parts[..i];
  }

  /** `updateUserList(s)`: empty for a null or empty string, else the parts `split(",")` yields, kept. */
  function ParseUserList(listing: Option<string>): (names: seq<string>)
    ensures WellFormedNames(names)
  {
    match listing
    case None => []
    case Some(s) =>
      if s == [] then []
      else
        KeptNamesAreWellFormed(JavaSplit(s, ','));
        KeepNames(JavaSplit(s, ','))
  }

  // ---------------------------------------------------------------------------
  // Incoming dispatch

  /** A line of the chat area: a message bubble, or a centred system notice. */
  datatype ChatLine =
    | Bubble(from: string, text: string, outgoing: bool, isPrivate: bool)
    | Notice(text: string)

  /** What `handleIncomingMessage` does with one envelope. */
  datatype Reaction = Show(line: ChatLine) | ReplaceRoster(listing: string) | Ignore

  /**
   * The switch of `handleIncomingMessage`: chat messages become incoming
   * bubbles (private ones marked), USER_LIST replaces the roster, CONNECT and
   * DISCONNECT become notices, and USERNAME_UPDATE has no case.
   */
  function Dispatch(m: Envelope): (r: Reaction)
    ensures r.Show? && r.line.Bubble? <==> m.kind == Broadcast || m.kind == Private
    ensures r.Show? && r.line.Bubble? ==>
      r.line == Bubble(m.sender, m.content, false, m.kind == Private)
    ensures r.Show? && r.line.Notice? <==> m.kind == Connect || m.kind == Disconnect
    ensures r.Show? ==> r.line.text == m.content
    ensures r.ReplaceRoster? <==> m.kind == UserList
    ensures r.Ignore? <==> m.kind == UsernameUpdate
  {
    match m.kind
    case Broadcast => Show(Bubble(m.sender, m.content, false, false))
    case Private => Show(Bubble(m.sender, m.content, false, true))
    case UserList => ReplaceRoster(m.content)
    case Connect => Show(Notice(m.content))
    case Disconnect => Show(Notice(m.content))
    case UsernameUpdate => Ignore
  }

  /** The bubble `sendMessage` shows for an envelope it wrote. */
  function Echo(msg: Envelope): (line: ChatLine)
    ensures line.Bubble? && line.from == "You" && line.outgoing
    ensures line.isPrivate <==> msg.kind == Private
    ensures msg.kind != Private ==> line.text == msg.content
    ensures msg.kind == Private ==> "To " + msg.recipient + ": " <= line.text
    ensures msg.kind == Private ==> line.text[|msg.recipient| + 5..] == msg.content
  {
    if msg.kind == Private then Bubble("You", "To " + msg.recipient + ": " + msg.content, true, true)
    else Bubble("You", msg.content, true, false)
  }

  // ---------------------------------------------------------------------------
  // The envelopes of connect and disconnect

  /** The first envelope `connectToServer` writes: the typed name, as content. */
  function ConnectEnvelope(username: string): (e: Envelope)
    ensures e.kind == Connect && e.content == username && e.sender == username
  {
    Envelope(username, ServerAddress, username, Connect)
  }

  /** The envelope `disconnectFromServer` writes. */
  function DisconnectEnvelope(username: string): (e: Envelope)
    ensures e.kind == Disconnect && e.sender == username
  {
    Envelope(username, ServerAddress, "Disconnecting", Disconnect)
  }

  const WelcomeText: string := "Welcome to Modern Chat! Click 'Connect' to join the conversation."
  const ConnectingText: string := "Connecting to server..."
  const DisconnectedText: string := "Disconnected from server."

  // ---------------------------------------------------------------------------
  // The client object

  class Client {
    /** The last answer to the username dialog (None when it was cancelled or never shown). */
    var username: Option<string>
    var connected: bool
    /** The text in the message field. */
    var messageField: string
    /** `userListModel`, and the count the "Online Users" label shows. */
    var userListModel: seq<string>
    var onlineCount: nat
    /** The chat area, line by line. */
    var chat: seq<ChatLine>
    /** Every envelope written to the server, in order. */
    var sent: seq<Envelope>

    /**
     * A connected client has a non-blank name; the label counts the list; the
     * list holds only well-formed names.
     */
    predicate Valid()
      reads this`connected, this`username, this`onlineCount, this`userListModel
    {
      && (connected ==> username.Some? && !IsBlank(username.value))
      && onlineCount == |userListModel|
      && WellFormedNames(userListModel)
    }

    /** `new Client()`: disconnected, empty list, the welcome notice. */
    constructor ()
      ensures Valid()
      ensures username == None && !connected && messageField == []
      ensures userListModel == [] && chat == [Notice(WelcomeText)] && sent == []
    {
      username := None;
      connected := false;
      messageField := [];
      userListModel := [];
      onlineCount := 0;
      chat := [Notice(WelcomeText)];
      sent := [];
    }

    /**
     * `connectToServer`, from the username dialog on: `typed` is the dialog's
     * answer and `reachable` whether the socket could be opened. The answer
     * is stored even when it aborts the connect. The Connect button that
     * calls it is disabled while connected.
     */
    method ConnectToServer(typed: Option<string>, reachable: bool)
      requires Valid() && !connected
      modifies this
      ensures Valid()
      ensures username == typed
      ensures messageField == old(messageField) && userListModel == old(userListModel)
      ensures if typed.Some? && !IsBlank(typed.value) && reachable then
                && connected
                && sent == old(sent) + [ConnectEnvelope(typed.value)]
                && chat == old(chat) + [Notice(ConnectingText)]
              else
                !connected && sent == old(sent) && chat == old(chat)
    {
      username := typed;
      if typed.None? || IsBlank(typed.value) {
        return;
      }
      if !reachable {
        return;
      }
      sent := sent + [ConnectEnvelope(typed.value)];
      connected := true;
      chat := chat + [Notice(ConnectingText)];
    }

    /** `closeConnection`: disconnected, empty list, the notice. */
    method CloseConnection()
      requires Valid()
      modifies this
      ensures Valid()
      ensures !connected && userListModel == [] && onlineCount == 0
      ensures chat == old(chat) + [Notice(DisconnectedText)]
      ensures username == old(username) && messageField == old(messageField) && sent == old(sent)
    {
      connected := false;
      userListModel := [];
      onlineCount := 0;
      chat := chat + [Notice(DisconnectedText)];
    }

    /** `disconnectFromServer`: a DISCONNECT envelope, then `closeConnection`; nothing when not connected. */
    method DisconnectFromServer()
      requires Valid()
      modifies this
      ensures Valid()
      ensures !old(connected) ==> unchanged(this)
      ensures old(connected) ==>
        && !connected && userListModel == []
        && sent == old(sent) + [DisconnectEnvelope(old(username).value)]
        && chat == old(chat) + [Notice(DisconnectedText)]
    {
      if connected {
        sent := sent + [DisconnectEnvelope(username.value)];
        CloseConnection();
      }
    }

    /**
     * `sendMessage`: when connected and the field parses to an envelope, the
     * envelope is written, echoed as an outgoing bubble and the field cleared;
     * in every other case nothing changes.
     */
    method SendMessage()
      requires Valid()
      modifies this`sent, this`chat, this`messageField
      ensures Valid()
      ensures !old(connected) ==> unchanged(this)
      ensures old(connected) && ParseInput(username.value, old(messageField)).Ready? ==>
        var msg := ParseInput(username.value, old(messageField)).msg;
        && sent == old(sent) + [msg]
        && chat == old(chat) + [Echo(msg)]
        && messageField == []
      ensures old(connected) && !ParseInput(username.value, old(messageField)).Ready? ==> unchanged(this)
    {
      if !connected {
        return;
      }
      var d := ParseInput(username.value, messageField);
      Submit(d);
    }

    /** The end of `sendMessage` for a parsed field: write, echo and clear for an envelope, else nothing. */
    method Submit(d: Draft)
      modifies this`sent, this`chat, this`messageField
      ensures d.Ready? ==>
        && sent == old(sent) + [d.msg]
        && chat == old(chat) + [Echo(d.msg)]
        && messageField == []
      ensures !d.Ready? ==> unchanged(this)
    {
      if d.Ready? {
        sent := sent + [d.msg];
        chat := chat + [Echo(d.msg)];
        messageField := [];
      }
    }

    /** The double-click on a list entry: prefill a private message unless it is the client's own name. */
    method SelectUser(selected: Option<string>)
      modifies this`messageField
      ensures if selected.Some? && Some(selected.value) != username then messageField == Prefill(selected.value)
              else messageField == old(messageField)
    {
      if selected.Some? && Some(selected.value) != username {
        messageField := Prefill(selected.value);
      }
    }

    /** `updateUserList`: clear, then the kept parts of the roster string one by one; the label follows. */
    method UpdateUserList(listing: Option<string>)
      requires Valid()
      modifies this`userListModel, this`onlineCount
      ensures Valid()
      ensures userListModel == ParseUserList(listing)
      ensures onlineCount == |ParseUserList(listing)|
    {
      userListModel := [];
      if listing.Some? && listing.value != [] {
        var users := JavaSplit(listing.value, ',');
        for i := 0 to |users|
          invariant userListModel == KeepNames(users[..i])
        {
          KeepNamesPrefix(users, i);
          if !IsBlank(users[i]) {
            userListModel := userListModel + [Trim(users[i])];
          }
        }
        assert users[..|users|] == users;
        assert userListModel == ParseUserList(listing);
      }
      onlineCount := |userListModel|;
    }

    /** `handleIncomingMessage`: apply the dispatch of `m`. */
    method HandleIncomingMessage(m: Envelope)
      requires Valid()
      modifies this
      ensures Valid()
      ensures match Dispatch(m)
        case Show(line) => chat == old(chat) + [line] && userListModel == old(userListModel)
        case ReplaceRoster(listing) => chat == old(chat) && userListModel == ParseUserList(Some(listing))
        case Ignore => chat == old(chat) && userListModel == old(userListModel)
      ensures connected == old(connected) && username == old(username)
      ensures sent == old(sent) && messageField == old(messageField)
    {
      match m.kind
      case Broadcast => chat := chat + [Bubble(m.sender, m.content, false, false)];
      case Private => chat := chat + [Bubble(m.sender, m.content, false, true)];
      case UserList => UpdateUserList(Some(m.content));
      case Connect => chat := chat + [Notice(m.content)];
      case Disconnect => chat := chat + [Notice(m.content)];
      case UsernameUpdate =>
    }
  }
}
