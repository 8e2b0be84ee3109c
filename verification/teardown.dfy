/** Connection teardown. `close` takes the passive path when the last
    accepted packet was the peer's FIN, and the active path otherwise; every
    exception inside is swallowed and the connection always ends CLOSED. */
module Teardown {
  import opened Options
  import opened Packets
  import opened Connection

  /** The connection as the teardown leaves it, wherever it stopped. */
  function Closed(c: Conn): Outcome<()> {
    Return(c.(state := CLOSED), ())
  }

  /** Passive close, the peer's FIN already accepted: acknowledge it (first
      send), enter CLOSE_WAIT, send our FIN (second send), enter LAST_ACK
      and validate the reply as an ACK. */
  function ClosePassive(c: Conn, ch: Channel): (r: Outcome<()>)
    ensures r.Return? ==> r.conn.state == CLOSED
    ensures r.Pending? ==> r.conn.state in {c.state, CLOSE_WAIT, LAST_ACK}
    ensures r.conn.lastValid == c.lastValid
      || (|ch.replies| > 0 && ch.replies[0].Got? && r.conn.lastValid == Some(ch.replies[0].packet)
          && ch.replies[0].packet.flag == ACK && ch.replies[0].packet.Intact())
  {
    if |ch.sends| == 0 then Pending(c)
    else
      var c1 := Advance(c, ch.sends[0]);
      if ch.sends[0].thrown then Closed(c1)
      else
        var c2 := c1.(state := CLOSE_WAIT);
        if |ch.sends| < 2 then Pending(c2)
        else
          var c3 := Advance(c2, ch.sends[1]).(state := LAST_ACK);
          if ch.sends[1].thrown then Closed(Advance(c2, ch.sends[1]))
          else if |ch.replies| == 0 then Pending(c3)
          else match ch.replies[0]
            case NoPacket => Closed(c3)
            case Fault => Closed(c3)
            case Got(finAck) =>
              var (_, c4) := IsValid(c3, finAck);
              Closed(c4)
  }

  /** Active close: send our FIN (first send), enter FIN_WAIT_1, validate the
      reply as an ACK, enter FIN_WAIT_2, validate the next reply as the
      peer's FIN, and acknowledge it (second send). */
  function CloseActive(c: Conn, ch: Channel): (r: Outcome<()>)
    ensures r.Return? ==> r.conn.state == CLOSED
    ensures r.Pending? ==> r.conn.state in {c.state, FIN_WAIT_1, FIN_WAIT_2}
    ensures r.conn.lastValid == c.lastValid
      || (|ch.replies| > 0 && ch.replies[0].Got? && r.conn.lastValid == Some(ch.replies[0].packet))
      || (|ch.replies| > 1 && ch.replies[1].Got? && r.conn.lastValid == Some(ch.replies[1].packet)
          && ch.replies[1].packet.flag == FIN && ch.replies[1].packet.Intact())
  {
    if |ch.sends| == 0 then Pending(c)
    else
      var c1 := Advance(c, ch.sends[0]);
      if ch.sends[0].thrown then Closed(c1)
      else
        var c2 := c1.(state := FIN_WAIT_1);
        if |ch.replies| == 0 then Pending(c2)
        else match ch.replies[0]
          case NoPacket => Closed(c2)
          case Fault => Closed(c2)
          case Got(finAck) =>
            var (ok, c3) := IsValid(c2, finAck);
            if !ok then Closed(c3)
            else
              var c4 := c3.(state := FIN_WAIT_2);
              if |ch.replies| < 2 then Pending(c4)
              else match ch.replies[1]
                case NoPacket => Closed(c4)
                case Fault => Closed(c4)
                case Got(fin) =>
                  var (ok', c5) := IsValid(c4, fin);
                  if !ok' then Closed(c5)
                  else if |ch.sends| < 2 then Pending(c5)
                  else Closed(Advance(c5, ch.sends[1]))
  }

  /** Close the connection. With no accepted packet at all, the look at the
      last packet's flag fails at once and the connection is simply marked
      CLOSED. */
  function Close(c: Conn, ch: Channel): (r: Outcome<()>)
    ensures !r.Raise?
    ensures r.Return? ==> r.conn.state == CLOSED
    ensures c.lastValid == None ==> r == Return(c.(state := CLOSED), ())
    ensures r.conn.myAddress == c.myAddress && r.conn.myPort == c.myPort
    ensures r.conn.remoteAddress == c.remoteAddress && r.conn.remotePort == c.remotePort
    ensures r.Pending? ==> r.conn.state != CLOSED || c.state == CLOSED
  {
    match c.lastValid
    case None => Closed(c)
    case Some(last) =>
      if last.flag == FIN then ClosePassive(c, ch) else CloseActive(c, ch)
  }

  /** Once the channel has supplied an outcome for each of its steps,
      `close` has returned and the connection is CLOSED, whatever those
      outcomes were. */
  lemma CloseAlwaysCloses(c: Conn, ch: Channel)
    requires |ch.sends| >= 2 && |ch.replies| >= 2
    ensures Close(c, ch).Return?
    ensures Close(c, ch).conn.state == CLOSED
  {
  }

  /** A connection handed out by `accept` has accepted nothing yet; closing
      it before any data arrives sends no FIN and asks nothing of the
      channel. */
  lemma CloseUnusedChildSendsNothing(c: Conn, ch: Channel)
    requires c.state == ESTABLISHED && c.lastValid == None
    ensures Close(c, ch) == Close(c, Channel([], []))
    ensures Close(c, ch).conn.state == CLOSED
  {
  }

  /** The active close ends remembering a new FIN only when the first reply
      was a valid ACK of our FIN and the second the peer's FIN, numbered
      right after that ACK. */
  lemma ActiveCloseRecordsPeerFin(c: Conn, ch: Channel)
    requires c.lastValid.Some? && c.lastValid.value.flag != FIN
    requires Close(c, ch).conn.lastValid.Some? && Close(c, ch).conn.lastValid.value.flag == FIN
    ensures |ch.replies| >= 2 && ch.replies[0].Got? && ch.replies[1].Got?
    ensures ch.replies[1].packet == Close(c, ch).conn.lastValid.value
    ensures ch.replies[0].packet.flag == ACK && ch.replies[0].packet.Intact()
    ensures ch.replies[1].packet.Intact()
    ensures ch.replies[1].packet.seqNr == Wrap(ch.replies[0].packet.seqNr + 1)
  {
  }
}
