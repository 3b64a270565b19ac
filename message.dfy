/**
 * The wire envelope (src/Message.java): the six message types, the record a
 * `Message` object serialises to, and the `Message` object itself with its
 * setters.
 */
module Envelopes {

  /** `Message.MessageType`, in declaration order. */
  datatype MessageType = Broadcast | Private | UserList | Connect | Disconnect | UsernameUpdate

  /** The declaration order of `MessageType`, which is also its ordinal order. */
  const AllTypes: seq<MessageType> := [Broadcast, Private, UserList, Connect, Disconnect, UsernameUpdate]

  /** `MessageType` has exactly the six constants, each listed once. */
  lemma SixMessageTypes(t: MessageType)
    ensures t in AllTypes
    ensures |AllTypes| == 6
    ensures forall i, j :: 0 <= i < j < |AllTypes| ==> AllTypes[i] != AllTypes[j]
  {
  }

  /**
   * What `writeObject` puts on the stream for one `Message`: the field values
   * at the moment of the write. The timestamp is not part of the model.
   */
  datatype Envelope = Envelope(sender: string, recipient: string, content: string, kind: MessageType)

  /** A `Message` object; its getters are the field reads. */
  class Message {
    var sender: string
    var recipient: string
    var content: string
    var kind: MessageType
    var timestamp: int

    /** `new Message(sender, recipient, content, type)`; `now` is the clock reading. */
    constructor (sender: string, recipient: string, content: string, kind: MessageType, now: int)
      ensures this.sender == sender && this.recipient == recipient
      ensures this.content == content && this.kind == kind
      ensures timestamp == now
    {
      this.sender := sender;
      this.recipient := recipient;
      this.content := content;
      this.kind := kind;
      timestamp := now;
    }

    /** The envelope this object serialises to. */
    function Wire(): (e: Envelope)
      reads this
      ensures e.sender == sender && e.recipient == recipient
      ensures e.content == content && e.kind == kind
    {
      Envelope(sender, recipient, content, kind)
    }

    method SetSender(sender: string)
      modifies this
      ensures this.sender == sender
      ensures recipient == old(recipient) && content == old(content)
      ensures kind == old(kind) && timestamp == old(timestamp)
    {
      this.sender := sender;
    }

    method SetRecipient(recipient: string)
      modifies this
      ensures this.recipient == recipient
      ensures sender == old(sender) && content == old(content)
      ensures kind == old(kind) && timestamp == old(timestamp)
    {
      this.recipient := recipient;
    }

    method SetContent(content: string)
      modifies this
      ensures this.content == content
      ensures sender == old(sender) && recipient == old(recipient)
      ensures kind == old(kind) && timestamp == old(timestamp)
    {
      this.content := content;
    }

    method SetType(kind: MessageType)
      modifies this
      ensures this.kind == kind
      ensures sender == old(sender) && recipient == old(recipient)
      ensures content == old(content) && timestamp == old(timestamp)
    {
      this.kind := kind;
    }

    method SetTimestamp(timestamp: int)
      modifies this
      ensures this.timestamp == timestamp
      ensures sender == old(sender) && recipient == old(recipient)
      ensures content == old(content) && kind == old(kind)
    {
      this.timestamp := timestamp;
    }
  }

  /** Writing a freshly built message sends exactly the four values it was built from. */
  method Compose(sender: string, recipient: string, content: string, kind: MessageType, now: int)
    returns (e: Envelope)
    ensures e.sender == sender && e.recipient == recipient
    ensures e.content == content && e.kind == kind
  {
    var m := new Message(sender, recipient, content, kind, now);
    e := m.Wire();
  }
}
