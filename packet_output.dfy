/** The outbound buffer an authentication plugin writes its response into.
    The real stream (its header encoding, packet splitting, charset encoding
    and socket write) is not part of this model: here it keeps the payload of
    the packet being assembled and the log of packets it has flushed, so that
    a packet becomes visible to the peer only when it is flushed. */
module PacketOutputStream {
  import opened Wire

  class PacketOutput {
    /** The stream's view of the sequence number of the command that opened
        the current packet. */
    var packetSeq: SeqNo
    /** Bytes of the packet being assembled, not yet visible to the peer. */
    var payload: seq<byte>
    /** Every packet flushed so far, oldest first. */
    var sent: seq<Packet>

    constructor ()
      ensures packetSeq == 0 && payload == [] && sent == []
    {
      packetSeq := 0;
      payload := [];
      sent := [];
    }

    /** Opens a new packet for the command whose sequence number is given. */
    method StartPacket(commandSeq: SeqNo)
      modifies this
      ensures packetSeq == commandSeq && payload == [] && sent == old(sent)
    {
      packetSeq := commandSeq;
      payload := [];
    }

    /** Appends the bytes of a string, unterminated (its encoding is taken
        to be the identity on bytes). */
    method WriteString(s: seq<byte>)
      modifies this
      ensures payload == old(payload) + s
      ensures packetSeq == old(packetSeq) && sent == old(sent)
    {
      payload := payload + s;
    }

    /** Appends one byte. */
    method WriteInt8(b: byte)
      modifies this
      ensures payload == old(payload) + [b]
      ensures packetSeq == old(packetSeq) && sent == old(sent)
    {
      payload := payload + [b];
    }

    /** Sends the assembled packet as one unit and empties the buffer. The
        packet's header carries the command's sequence number advanced by
        one, and that advanced number is handed back to become the command's
        sequence number. */
    method FlushBuffer(commit: bool) returns (headerSeq: SeqNo)
      modifies this
      ensures headerSeq == NextSeq(old(packetSeq))
      ensures sent == old(sent) + [Packet(headerSeq, old(payload), commit)]
      ensures payload == [] && packetSeq == headerSeq
    {
      headerSeq := NextSeq(packetSeq);
      sent := sent + [Packet(headerSeq, payload, commit)];
      payload := [];
      packetSeq := headerSeq;
    }
  }
}
