/** Connection establishment: the active open (`connect`) and the passive
    open (`accept`), each a three-way handshake driven by the outcomes the
    channel supplies. Any failure inside the handshake is caught, the state
    is forced to CLOSED and an I/O error is raised. */
module Handshake {
  import opened Options
  import opened Packets
  import opened Connection
  import Ports

  // ---------------------------------------------------------------------
  // connect
  // ---------------------------------------------------------------------

  /** The connection as it waits for the SYN_ACK: remote endpoint recorded,
      SYN sent. */
  function SynSent(c: Conn, remoteAddress: string, remotePort: int, syn: Emit): Conn {
    Advance(c.(remoteAddress := remoteAddress, remotePort := remotePort), syn).(state := SYN_SENT)
  }

  /** Active open: send SYN, enter SYN_SENT, validate the reply as a SYN_ACK,
      acknowledge it and enter ESTABLISHED. The channel supplies the SYN and
      the ACK sends, in that order, and the one reply. */
  function Connect(c: Conn, remoteAddress: string, remotePort: int, ch: Channel): (r: Outcome<()>)
    ensures r.conn.remoteAddress == remoteAddress && r.conn.remotePort == remotePort
    ensures r.conn.myAddress == c.myAddress && r.conn.myPort == c.myPort
    ensures r.Raise? ==> r.error == IoError && r.conn.state == CLOSED
    ensures r.Return? ==>
      && |ch.replies| > 0 && ch.replies[0].Got?
      && ch.replies[0].packet.flag == SYN_ACK && ch.replies[0].packet.Intact()
      && r.conn.lastValid == Some(ch.replies[0].packet)
      && r.conn.state == ESTABLISHED
    ensures r.conn.lastValid == c.lastValid
      || (|ch.replies| > 0 && ch.replies[0].Got? && r.conn.lastValid == Some(ch.replies[0].packet))
    ensures r.Pending? ==> r.conn.state == c.state || r.conn.state == SYN_SENT
    ensures r.Pending? ==> |ch.sends| < 2 || |ch.replies| == 0
  {
    var c0 := c.(remoteAddress := remoteAddress, remotePort := remotePort);
    if |ch.sends| == 0 then Pending(c0)
    else if ch.sends[0].thrown then Raise(Advance(c0, ch.sends[0]).(state := CLOSED), IoError)
    else
      var c1 := SynSent(c, remoteAddress, remotePort, ch.sends[0]);
      if |ch.replies| == 0 then Pending(c1)
      else match ch.replies[0]
        case NoPacket => Raise(c1.(state := CLOSED), IoError)
        case Fault => Raise(c1.(state := CLOSED), IoError)
        case Got(synAck) =>
          var (ok, c2) := IsValid(c1, synAck);
          if !ok then Raise(c2.(state := CLOSED), IoError)
          else if |ch.sends| < 2 then Pending(c2)
          else if ch.sends[1].thrown then Raise(Advance(c2, ch.sends[1]).(state := CLOSED), IoError)
          else Return(Advance(c2, ch.sends[1]).(state := ESTABLISHED), ())
  }

  /** Once the channel has supplied both sends and the reply, `connect`
      either establishes the connection or raises an I/O error with state
      CLOSED: every failure raises. */
  lemma ConnectFailureRaises(c: Conn, remoteAddress: string, remotePort: int, ch: Channel)
    requires |ch.sends| >= 2 && |ch.replies| > 0
    ensures var r := Connect(c, remoteAddress, remotePort, ch);
      r.Return? || (r.Raise? && r.error == IoError && r.conn.state == CLOSED)
  {
  }

  /** `connect` reaches ESTABLISHED exactly when both sends complete and the
      one reply passes validation in SYN_SENT. */
  lemma ConnectEstablishedIff(c: Conn, remoteAddress: string, remotePort: int, ch: Channel)
    ensures Connect(c, remoteAddress, remotePort, ch).Return? <==>
      && |ch.sends| >= 2 && !ch.sends[0].thrown && !ch.sends[1].thrown
      && |ch.replies| > 0 && ch.replies[0].Got?
      && Admits(SynSent(c, remoteAddress, remotePort, ch.sends[0]), ch.replies[0].packet)
  {
  }

  /** A corrupted SYN_ACK never establishes the connection; once the SYN is
      out, it makes `connect` fail with the state reset to CLOSED. */
  lemma ConnectRejectsCorruptSynAck(c: Conn, remoteAddress: string, remotePort: int, ch: Channel)
    requires |ch.replies| > 0 && ch.replies[0].Got? && !ch.replies[0].packet.Intact()
    ensures !Connect(c, remoteAddress, remotePort, ch).Return?
    ensures |ch.sends| > 0 ==>
      var r := Connect(c, remoteAddress, remotePort, ch);
      r.Raise? && r.conn.state == CLOSED
  {
  }

  /** A connection that has accepted a packet before (one numbered 100, say)
      still remembers it when it connects again, so the sequence check
      refuses an intact SYN_ACK numbered 5 from the new peer and `connect`
      fails with the state reset to CLOSED. */
  lemma ConnectReusedRefusesSynAck(c: Conn, remoteAddress: string, remotePort: int, synAck: Packet, ch: Channel)
    requires c.lastValid.Some? && c.lastValid.value.seqNr == 100
    requires synAck.flag == SYN_ACK && synAck.Intact() && synAck.seqNr == 5
    requires |ch.sends| > 0 && !ch.sends[0].thrown
    requires |ch.replies| > 0 && ch.replies[0] == Got(synAck)
    ensures Connect(c, remoteAddress, remotePort, ch).Raise?
    ensures Connect(c, remoteAddress, remotePort, ch).conn.state == CLOSED
  {
  }

  /** `connect` with the memory of earlier connections cleared first: once
      both sends complete, any intact SYN_ACK establishes the connection. */
  function ConnectFresh(c: Conn, remoteAddress: string, remotePort: int, ch: Channel): (r: Outcome<()>)
    ensures (|ch.sends| >= 2 && !ch.sends[0].thrown && !ch.sends[1].thrown
      && |ch.replies| > 0 && ch.replies[0].Got? && ch.replies[0].packet.flag == SYN_ACK
      && ch.replies[0].packet.Intact()) ==>
      && r.Return? && r.conn.state == ESTABLISHED
      && r.conn.lastValid == Some(ch.replies[0].packet)
  {
    Connect(c.(lastValid := None), remoteAddress, remotePort, ch)
  }

  /** With the reset, how `connect` ends does not depend on what the
      connection accepted before. */
  lemma ConnectFreshIgnoresHistory(c: Conn, d: Conn, remoteAddress: string, remotePort: int, ch: Channel)
    requires c.(lastValid := None) == d.(lastValid := None)
    ensures ConnectFresh(c, remoteAddress, remotePort, ch) == ConnectFresh(d, remoteAddress, remotePort, ch)
  {
  }

  // ---------------------------------------------------------------------
  // accept
  // ---------------------------------------------------------------------

  /** The listener once the SYN has passed validation: remote endpoint taken
      from the SYN's source, state SYN_RCVD. */
  function SynReceived(listener: Conn, syn: Packet): Conn {
    listener.(remoteAddress := syn.srcAddr, remotePort := syn.srcPort, state := SYN_RCVD)
  }

  /** The connection handed to the application by a successful `accept`: a
      fresh connection on the listener's port, with the listener's address
      and sequence counter, the SYN's source as remote endpoint, ESTABLISHED. */
  function Child(used: set<int>, listener: Conn, syn: Packet): (r: (Conn, set<int>))
    ensures r.0.state == ESTABLISHED && r.0.lastValid == None
    ensures r.0.remoteAddress == syn.srcAddr && r.0.remotePort == syn.srcPort
    ensures r.0.myAddress == listener.myAddress && r.0.myPort == listener.myPort
    ensures r.0.nextSequenceNo == listener.nextSequenceNo
    ensures r.1 == Ports.Register(used, listener.myPort)
  {
    var (con, used') := NewConnection(used, listener.myPort, listener.myAddress, listener.nextSequenceNo);
    (con.(remoteAddress := syn.srcAddr, remotePort := syn.srcPort, state := ESTABLISHED), used')
  }

  /** Passive open: enter LISTEN, validate the first packet as a SYN, enter
      SYN_RCVD, answer with a SYN_ACK, validate the reply as an ACK, return
      the listener to CLOSED and hand back a new ESTABLISHED connection. The
      channel supplies the SYN_ACK send and the two replies. The port table
      `used` is updated by the new connection's constructor. */
  function Accept(c: Conn, used: set<int>, ch: Channel): (r: (Outcome<Conn>, set<int>))
    ensures r.0.conn.myAddress == c.myAddress && r.0.conn.myPort == c.myPort
    ensures r.0.Raise? ==> r.0.error == IoError && r.0.conn.state == CLOSED
    ensures !r.0.Return? ==> r.1 == used
    ensures r.0.Pending? ==> r.0.conn.state == LISTEN || r.0.conn.state == SYN_RCVD
    ensures r.0.Pending? ==> |ch.sends| == 0 || |ch.replies| < 2
    ensures r.0.Return? ==>
      && |ch.replies| >= 2 && ch.replies[0].Got? && ch.replies[1].Got?
    ensures r.0.Return? ==>
      var syn := ch.replies[0].packet;
      var ack := ch.replies[1].packet;
      var child := r.0.value;
      && syn.flag == SYN && syn.Intact()
      && ack.flag == ACK && ack.Intact() && ack.seqNr == Wrap(syn.seqNr + 1)
      && ack.ackNr == Wrap(r.0.conn.nextSequenceNo - 1)
      && r.0.conn.state == CLOSED && r.0.conn.lastValid == Some(ack)
      && child.state == ESTABLISHED && child.lastValid == None
      && child.remoteAddress == syn.srcAddr && child.remotePort == syn.srcPort
      && child.myAddress == c.myAddress && child.myPort == c.myPort
      && child.nextSequenceNo == r.0.conn.nextSequenceNo
      && r.1 == Ports.Register(used, c.myPort)
  {
    var c0 := c.(state := LISTEN);
    if |ch.replies| == 0 then (Pending(c0), used)
    else match ch.replies[0]
      case NoPacket => (Raise(c0.(state := CLOSED), IoError), used)
      case Fault => (Raise(c0.(state := CLOSED), IoError), used)
      case Got(syn) =>
        var (ok, c1) := IsValid(c0, syn);
        if !ok then (Raise(c1.(state := CLOSED), IoError), used)
        else
          var c2 := SynReceived(c1, syn);
          if |ch.sends| == 0 then (Pending(c2), used)
          else
            var c3 := Advance(c2, ch.sends[0]);
            if ch.sends[0].thrown then (Raise(c3.(state := CLOSED), IoError), used)
            else if |ch.replies| < 2 then (Pending(c3), used)
            else match ch.replies[1]
              case NoPacket => (Raise(c3.(state := CLOSED), IoError), used)
              case Fault => (Raise(c3.(state := CLOSED), IoError), used)
              case Got(ack) =>
                var (ok', c4) := IsValid(c3, ack);
                if !ok' then (Raise(c4.(state := CLOSED), IoError), used)
                else
                  var listener := c4.(state := CLOSED);
                  var (child, used') := Child(used, listener, syn);
                  (Return(listener, child), used')
  }

  /** Once the channel has supplied the send and both replies, `accept`
      either hands back a connection or raises an I/O error with the
      listener CLOSED and the port table untouched: every failure raises. */
  lemma AcceptFailureRaises(c: Conn, used: set<int>, ch: Channel)
    requires |ch.sends| > 0 && |ch.replies| >= 2
    ensures var r := Accept(c, used, ch);
      r.0.Return? || (r.0.Raise? && r.0.error == IoError && r.0.conn.state == CLOSED && r.1 == used)
  {
  }

  /** `accept` succeeds exactly when the first reply passes validation in
      LISTEN, the SYN_ACK goes out, and the second reply passes validation in
      SYN_RCVD. */
  lemma AcceptSucceedsIff(c: Conn, used: set<int>, ch: Channel)
    ensures Accept(c, used, ch).0.Return? <==>
      && |ch.replies| >= 2 && ch.replies[0].Got? && ch.replies[1].Got?
      && |ch.sends| > 0 && !ch.sends[0].thrown
      && var listening := c.(state := LISTEN);
      var syn := ch.replies[0].packet;
      && Admits(listening, syn)
      && Admits(Advance(SynReceived(listening.(lastValid := Some(syn)), syn), ch.sends[0]), ch.replies[1].packet)
  {
  }

  /** The new connection registers the listener's own port, so a listener
      whose port is already registered leaves the port table as it was. */
  lemma AcceptKeepsPortTable(c: Conn, used: set<int>, ch: Channel)
    requires c.myPort in used
    ensures Accept(c, used, ch).1 == used
  {
    Ports.RegisterKnownPort(used, c.myPort);
  }

  /** A listener that has accepted before still remembers the ACK of that
      handshake, so the sequence check refuses any SYN that does not carry
      exactly the next sequence number: here a peer's SYN numbered 5 after a
      handshake that ended with an ACK numbered 100. */
  lemma AcceptReusedListenerRefusesSyn(c: Conn, used: set<int>, syn: Packet, ch: Channel)
    requires c.lastValid.Some? && c.lastValid.value.seqNr == 100
    requires syn.flag == SYN && syn.Intact() && syn.seqNr == 5
    requires |ch.replies| > 0 && ch.replies[0] == Got(syn)
    ensures Accept(c, used, ch).0.Raise?
    ensures Accept(c, used, ch).0.conn.state == CLOSED
  {
  }

  /** `accept` with the listener's memory of earlier handshakes cleared on
      entering LISTEN, so that every accept starts from the same point: an
      intact SYN always passes, and the listener goes on to SYN_RCVD
      remembering it, whatever the later steps bring. */
  function AcceptFresh(c: Conn, used: set<int>, ch: Channel): (r: (Outcome<Conn>, set<int>))
    ensures (|ch.replies| > 0 && ch.replies[0].Got? && ch.replies[0].packet.flag == SYN
      && ch.replies[0].packet.Intact()) ==>
      && r.0.conn.lastValid.Some?
      && (r.0.Pending? ==> r.0.conn.state == SYN_RCVD)
  {
    Accept(c.(lastValid := None), used, ch)
  }

  /** With the reset, how `accept` ends does not depend on what the listener
      accepted before. */
  lemma AcceptFreshIgnoresHistory(c: Conn, d: Conn, used: set<int>, ch: Channel)
    requires c.(lastValid := None) == d.(lastValid := None)
    ensures AcceptFresh(c, used, ch) == AcceptFresh(d, used, ch)
  {
  }

  /** The listener of the counterexample above, with the reset, takes the
      SYN numbered 5. */
  lemma AcceptFreshTakesSyn(c: Conn, used: set<int>, syn: Packet, ch: Channel)
    requires c.lastValid.Some? && c.lastValid.value.seqNr == 100
    requires syn.flag == SYN && syn.Intact() && syn.seqNr == 5
    requires |ch.replies| > 0 && ch.replies[0] == Got(syn)
    ensures AcceptFresh(c, used, ch).0.conn.lastValid.Some?
    ensures AcceptFresh(c, used, ch).0.conn.lastValid != c.lastValid
  {
  }
}
