/**
  The wire vocabulary shared by the signaling relay and the negotiation client.
  Both programs declare the same tagged union (signaling-server/src/main.rs and
  src-tauri/src/transport.rs); one datatype stands for both copies.
*/
module Signal {
  import opened Wrappers

  /** One signaling message. Payloads are opaque blobs: nobody here interprets them. */
  datatype SignalMessage =
    | Join(deviceId: string)
    | Offer(payload: string, target: string)
    | Answer(payload: string, target: string)
    | IceCandidate(payload: string, target: string)
    | PeerDisconnected(deviceId: string)
    | Error(message: string)
  {
    /** The three kinds the relay forwards to a target without looking inside. */
    predicate IsRelayed() {
      Offer? || Answer? || IceCandidate?
    }
  }

  /**
    One item read from a websocket. `Text` carries the outcome of decoding the
    frame's JSON text as a SignalMessage (`None` when it does not decode).
    `EndOfStream` is the stream yielding nothing any more.
  */
  datatype Frame =
    | Text(decoded: Option<SignalMessage>)
    | NonText
    | ReadError
    | EndOfStream

  /** The literal target both clients use: a room holds two parties, so the other one is "the peer". */
  const PeerTarget: string := "peer"

  const RoomFullMessage: string := "Room is full"
}
