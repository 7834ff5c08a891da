/**
  The negotiation client (src-tauri/src/transport.rs): `WebRtcClient::start`
  as a state machine. The websocket, the peer connection and JSON decoding are
  foreign; every call into them is an `Action` appended to a trace, and an
  `Env` value decides, from the trace so far, whether the call succeeds and
  which session description it produces.
*/
module Negotiation {
  import opened Wrappers
  import opened Signal

  /** A call into the websocket or the peer connection, in the order `start` makes them. */
  datatype Action =
    | Connect(url: string)
    | Send(msg: SignalMessage)
    | NewPeerConnection
    | CreateDataChannel(channel: string)
    | CreateOffer
    | CreateAnswer
    | SetLocalDescription(sdp: string)
    | SetRemoteDescription(sdp: string)
    | AddIceCandidate(candidate: string)

  /**
    The foreign world. `succeeds(t, a)`: whether call `a` succeeds after the
    calls in `t`. `description(t)`: the JSON text of the description that the
    last call of `t` (CreateOffer or CreateAnswer) produced. `decodesSdp` and
    `decodesCandidate`: whether a payload parses as a session description or
    as an ICE candidate.
  */
  datatype Env = Env(
    succeeds: (seq<Action>, Action) -> bool,
    description: seq<Action> -> string,
    decodesSdp: string -> bool,
    decodesCandidate: string -> bool)

  /** `Idle` before `start`; `Listening` in the receive loop; then `start` returns Ok or an error. */
  datatype Status = Idle | Listening | Succeeded | Failed

  datatype Session = Session(trace: seq<Action>, status: Status)

  const DataChannelLabel: string := "file_transfer"

  /** The websocket address: `{signaling_url}/ws/{room_id}` (transport.rs:48). */
  function SignalingAddress(signalingUrl: string, roomId: string): (r: string)
    ensures |r| == |signalingUrl| + 4 + |roomId|
    ensures r[..|signalingUrl|] == signalingUrl && r[|signalingUrl| + 4..] == roomId
    ensures r[|signalingUrl|..|signalingUrl| + 4] == "/ws/"
  {
    signalingUrl + "/ws/" + roomId
  }

  /** One fallible call: recorded, and the first failure ends the session (`?`). */
  function Do(env: Env, s: Session, a: Action): (r: Session)
    ensures s.status == Failed ==> r == s
    ensures s.status != Failed ==> r.trace == s.trace + [a]
    ensures s.status != Failed ==> (r.status == Failed <==> !env.succeeds(s.trace, a))
    ensures r.status != Failed ==> r.status == s.status
  {
    if s.status == Failed then s
    else Session(s.trace + [a], if env.succeeds(s.trace, a) then s.status else Failed)
  }

  /** The initiator's data channel and offer (transport.rs:125-167). */
  function Offering(env: Env, s: Session): Session {
    var s1 := Do(env, s, CreateDataChannel(DataChannelLabel));
    var s2 := Do(env, s1, CreateOffer);
    var offer := env.description(s2.trace);
    var s3 := Do(env, s2, SetLocalDescription(offer));
    Do(env, s3, Send(Offer(offer, PeerTarget)))
  }

  /** The websocket connection, the join and the peer connection (transport.rs:48-92). */
  function Connecting(env: Env, url: string, deviceId: string): Session {
    var s1 := Do(env, Session([], Idle), Connect(url));
    var s2 := Do(env, s1, Send(Join(deviceId)));
    Do(env, s2, NewPeerConnection)
  }

  /** `start` up to its receive loop (transport.rs:48-202). */
  function Opening(env: Env, url: string, deviceId: string, initiator: bool): Session {
    var s3 := Connecting(env, url, deviceId);
    var s4 := if initiator then Offering(env, s3) else s3;
    if s4.status == Failed then s4 else s4.(status := Listening)
  }

  /** The answer to a received offer (transport.rs:212-227). */
  function Answering(env: Env, s: Session, sdp: string): Session {
    var s1 := Do(env, s, SetRemoteDescription(sdp));
    var s2 := Do(env, s1, CreateAnswer);
    var answer := env.description(s2.trace);
    var s3 := Do(env, s2, SetLocalDescription(answer));
    Do(env, s3, Send(Answer(answer, PeerTarget)))
  }

  /** The handling of one decoded message (transport.rs:209-241). */
  function Handle(env: Env, s: Session, m: SignalMessage): Session {
    match m
    case Offer(payload, _) =>
      if env.decodesSdp(payload) then Answering(env, s, payload) else s.(status := Failed)
    case Answer(payload, _) =>
      if env.decodesSdp(payload) then Do(env, s, SetRemoteDescription(payload)) else s.(status := Failed)
    case IceCandidate(payload, _) =>
      if env.decodesCandidate(payload) then Do(env, s, AddIceCandidate(payload)) else s.(status := Failed)
    case _ => s
  }

  /** One turn of the receive loop (transport.rs:206-244). */
  function Dispatch(env: Env, s: Session, frame: Frame): Session
    requires s.status == Listening
  {
    match frame
    case EndOfStream => s.(status := Succeeded)
    case Text(Some(m)) => Handle(env, s, m)
    case _ => s
  }

  /**
    The local-candidate callback (transport.rs:98-122). `encoded` is the
    candidate's JSON text, or `None` when the callback got no candidate or
    the candidate did not encode. The send's own result is ignored.
  */
  function Trickle(s: Session, encoded: Option<string>): Session {
    match encoded
    case Some(json) => s.(trace := s.trace + [Send(IceCandidate(json, PeerTarget))])
    case None => s
  }

  // ---------------------------------------------------------------------------
  // What every trace respects
  // ---------------------------------------------------------------------------

  /** How many messages a trace sends. */
  function SendsIn(t: seq<Action>): nat {
    if t == [] then 0 else (if t[0].Send? then 1 else 0) + SendsIn(t[1..])
  }

  /**
    The order the client keeps: it connects first, its first message is
    `Join`, every relayed message goes to "peer", and only the initiator
    creates a data channel and sends an offer, the channel first.
  */
  ghost predicate WellOrdered(t: seq<Action>, url: string, deviceId: string, initiator: bool) {
    && (t != [] ==> t[0] == Connect(url))
    && (forall i | 0 <= i < |t| && t[i].Send? :: 1 <= i && t[1] == Send(Join(deviceId)))
    && (forall i | 0 <= i < |t| && t[i].Send? && t[i].msg.Join? :: i == 1)
    && (forall i | 0 <= i < |t| && t[i].Send? && t[i].msg.IsRelayed() :: t[i].msg.target == PeerTarget)
    && (forall i | 0 <= i < |t| && t[i].CreateDataChannel? :: initiator && i == 3)
    && (forall i | 0 <= i < |t| && t[i].Send? && t[i].msg.Offer? :: initiator && i == 6 && t[3] == CreateDataChannel(DataChannelLabel))
  }

  /** Past the opening: the trace starts with the connection, the join and the peer connection. */
  ghost predicate Opened(t: seq<Action>, deviceId: string) {
    |t| >= 3 && t[1] == Send(Join(deviceId))
  }

  ghost predicate SessionOk(s: Session, url: string, deviceId: string, initiator: bool) {
    && WellOrdered(s.trace, url, deviceId, initiator)
    && (s.status == Listening || s.status == Succeeded ==> Opened(s.trace, deviceId))
    && s.status != Idle
  }

  /** What the receive loop and the callback may call. */
  predicate IsLate(a: Action) {
    match a
    case Send(m) => (m.IsRelayed() && !m.Offer? && m.target == PeerTarget)
    case SetLocalDescription(_) => true
    case SetRemoteDescription(_) => true
    case CreateAnswer => true
    case AddIceCandidate(_) => true
    case _ => false
  }

  lemma AppendLate(t: seq<Action>, a: Action, url: string, deviceId: string, initiator: bool)
    requires WellOrdered(t, url, deviceId, initiator) && Opened(t, deviceId) && IsLate(a)
    ensures WellOrdered(t + [a], url, deviceId, initiator) && Opened(t + [a], deviceId)
  {
    var t' := t + [a];
    assert t'[|t|] == a;
    assert forall i | 0 <= i < |t| :: t'[i] == t[i];
  }

  lemma DoLate(env: Env, s: Session, a: Action, url: string, deviceId: string, initiator: bool)
    requires SessionOk(s, url, deviceId, initiator) && s.status == Listening && IsLate(a)
    ensures SessionOk(Do(env, s, a), url, deviceId, initiator)
    ensures Do(env, s, a).status in {Listening, Failed}
  {
    AppendLate(s.trace, a, url, deviceId, initiator);
  }

  predicate IsPrefix(t: seq<Action>, script: seq<Action>) {
    |t| <= |script| && t == script[..|t|]
  }

  /** A call that is the next one of a script keeps the trace a prefix of it. */
  lemma DoAlong(env: Env, s: Session, a: Action, script: seq<Action>, k: nat)
    requires IsPrefix(s.trace, script) && k < |script|
    requires s.status != Failed ==> |s.trace| == k && script[k] == a
    ensures IsPrefix(Do(env, s, a).trace, script)
    ensures Do(env, s, a).status != Failed ==> |Do(env, s, a).trace| == k + 1
  {
    if s.status != Failed {
      assert script[..k + 1] == script[..k] + [a];
    }
  }

  lemma {:induction false} PrefixKeepsOrder(t: seq<Action>, n: nat, url: string, deviceId: string, initiator: bool)
    requires WellOrdered(t, url, deviceId, initiator) && n <= |t|
    ensures WellOrdered(t[..n], url, deviceId, initiator)
  {
    var p := t[..n];
    assert forall i | 0 <= i < n :: p[i] == t[i];
  }

  /** Everything `start` calls before its loop, when every call succeeds. */
  function OpeningScript(url: string, deviceId: string, initiator: bool, offer: string): seq<Action> {
    [Connect(url), Send(Join(deviceId)), NewPeerConnection]
      + if initiator then [CreateDataChannel(DataChannelLabel), CreateOffer, SetLocalDescription(offer), Send(Offer(offer, PeerTarget))]
        else []
  }

  /** The offer's text: what `create_offer` produced after the first five calls. */
  function OfferText(env: Env, url: string, deviceId: string): string {
    env.description([Connect(url), Send(Join(deviceId)), NewPeerConnection, CreateDataChannel(DataChannelLabel), CreateOffer])
  }

  lemma ScriptIsWellOrdered(url: string, deviceId: string, initiator: bool, offer: string)
    ensures WellOrdered(OpeningScript(url, deviceId, initiator, offer), url, deviceId, initiator)
  {
  }

  /** The first three calls of `start` follow any script that begins with them. */
  lemma ConnectingAlong(env: Env, url: string, deviceId: string, script: seq<Action>)
    requires |script| >= 3 && script[..3] == [Connect(url), Send(Join(deviceId)), NewPeerConnection]
    ensures IsPrefix(Connecting(env, url, deviceId).trace, script)
    ensures Connecting(env, url, deviceId).status != Failed ==>
              |Connecting(env, url, deviceId).trace| == 3 && Connecting(env, url, deviceId).status == Idle
  {
    var s0 := Session([], Idle);
    var s1 := Do(env, s0, Connect(url));
    DoAlong(env, s0, Connect(url), script, 0);
    var s2 := Do(env, s1, Send(Join(deviceId)));
    DoAlong(env, s1, Send(Join(deviceId)), script, 1);
    DoAlong(env, s2, NewPeerConnection, script, 2);
  }

  /** The initiator's four calls continue the script where the first three left it. */
  lemma OfferingAlong(env: Env, s: Session, url: string, deviceId: string)
    requires IsPrefix(s.trace, OpeningScript(url, deviceId, true, OfferText(env, url, deviceId)))
    requires s.status != Failed ==> |s.trace| == 3
    ensures IsPrefix(Offering(env, s).trace, OpeningScript(url, deviceId, true, OfferText(env, url, deviceId)))
    ensures Offering(env, s).status != Failed ==> |Offering(env, s).trace| == 7 && Offering(env, s).status == s.status
  {
    var script := OpeningScript(url, deviceId, true, OfferText(env, url, deviceId));
    var o1 := Do(env, s, CreateDataChannel(DataChannelLabel));
    DoAlong(env, s, CreateDataChannel(DataChannelLabel), script, 3);
    var o2 := Do(env, o1, CreateOffer);
    DoAlong(env, o1, CreateOffer, script, 4);
    var offer := env.description(o2.trace);
    if o2.status != Failed {
      assert o2.trace == script[..5]
        == [Connect(url), Send(Join(deviceId)), NewPeerConnection, CreateDataChannel(DataChannelLabel), CreateOffer];
    }
    var o3 := Do(env, o2, SetLocalDescription(offer));
    DoAlong(env, o2, SetLocalDescription(offer), script, 5);
    DoAlong(env, o3, Send(Offer(offer, PeerTarget)), script, 6);
  }

  /** `start` makes its calls in script order and stops at the first failure. */
  lemma OpeningFollowsScript(env: Env, url: string, deviceId: string, initiator: bool)
    ensures IsPrefix(Opening(env, url, deviceId, initiator).trace, OpeningScript(url, deviceId, initiator, OfferText(env, url, deviceId)))
    ensures Opening(env, url, deviceId, initiator).status == Listening ==>
              Opening(env, url, deviceId, initiator).trace == OpeningScript(url, deviceId, initiator, OfferText(env, url, deviceId))
    ensures Opening(env, url, deviceId, initiator).status in {Listening, Failed}
  {
    var script := OpeningScript(url, deviceId, initiator, OfferText(env, url, deviceId));
    var s3 := Connecting(env, url, deviceId);
    ConnectingAlong(env, url, deviceId, script);
    if initiator {
      OfferingAlong(env, s3, url, deviceId);
    }
  }

  /** The opening respects the order, whatever the world does. */
  lemma OpeningIsWellOrdered(env: Env, url: string, deviceId: string, initiator: bool)
    ensures SessionOk(Opening(env, url, deviceId, initiator), url, deviceId, initiator)
  {
    var script := OpeningScript(url, deviceId, initiator, OfferText(env, url, deviceId));
    OpeningFollowsScript(env, url, deviceId, initiator);
    ScriptIsWellOrdered(url, deviceId, initiator, OfferText(env, url, deviceId));
    PrefixKeepsOrder(script, |Opening(env, url, deviceId, initiator).trace|, url, deviceId, initiator);
  }

  /** Everything a received offer leads to, when every call succeeds. */
  function AnswerScript(env: Env, t: seq<Action>, sdp: string): seq<Action> {
    var answer := env.description(t + [SetRemoteDescription(sdp), CreateAnswer]);
    [SetRemoteDescription(sdp), CreateAnswer, SetLocalDescription(answer), Send(Answer(answer, PeerTarget))]
  }

  /** The four answering calls follow the answer script and stop at the first failure. */
  lemma AnsweringAlong(env: Env, s: Session, sdp: string)
    requires s.status == Listening
    ensures IsPrefix(Answering(env, s, sdp).trace, s.trace + AnswerScript(env, s.trace, sdp))
    ensures |Answering(env, s, sdp).trace| > |s.trace|
    ensures Answering(env, s, sdp).status != Failed ==> Answering(env, s, sdp).trace == s.trace + AnswerScript(env, s.trace, sdp)
    ensures Answering(env, s, sdp).status in {Listening, Failed}
  {
    var script := s.trace + AnswerScript(env, s.trace, sdp);
    var k := |s.trace|;
    assert IsPrefix(s.trace, script);
    var s1 := Do(env, s, SetRemoteDescription(sdp));
    DoAlong(env, s, SetRemoteDescription(sdp), script, k);
    var s2 := Do(env, s1, CreateAnswer);
    DoAlong(env, s1, CreateAnswer, script, k + 1);
    var answer := env.description(s2.trace);
    if s2.status != Failed {
      assert s2.trace == script[..k + 2] == s.trace + [SetRemoteDescription(sdp), CreateAnswer];
    }
    var s3 := Do(env, s2, SetLocalDescription(answer));
    DoAlong(env, s2, SetLocalDescription(answer), script, k + 2);
    DoAlong(env, s3, Send(Answer(answer, PeerTarget)), script, k + 3);
  }

  /**
    A received offer that decodes: the remote description is set, an answer
    created and set as local description, and that answer sent to "peer",
    in this order, stopping at the first failure. One that does not decode
    ends the session and calls nothing.
  */
  lemma OfferGetsOneAnswer(env: Env, s: Session, payload: string, target: string)
    requires s.status == Listening
    ensures env.decodesSdp(payload) ==> Dispatch(env, s, Text(Some(Offer(payload, target)))) == Answering(env, s, payload)
    ensures !env.decodesSdp(payload) ==> Dispatch(env, s, Text(Some(Offer(payload, target)))) == Session(s.trace, Failed)
    ensures IsPrefix(Answering(env, s, payload).trace, s.trace + AnswerScript(env, s.trace, payload))
    ensures |Answering(env, s, payload).trace| > |s.trace|
    ensures Answering(env, s, payload).status in {Listening, Failed}
    ensures Answering(env, s, payload).status == Listening ==>
              && Answering(env, s, payload).trace == s.trace + AnswerScript(env, s.trace, payload)
              && SendsIn(Answering(env, s, payload).trace) == SendsIn(s.trace) + 1
  {
    AnsweringAlong(env, s, payload);
    SendsAppend(s.trace, AnswerScript(env, s.trace, payload));
    SendsOfAnswerScript(env, s.trace, payload);
  }

  lemma SendsOfAnswerScript(env: Env, t: seq<Action>, sdp: string)
    ensures SendsIn(AnswerScript(env, t, sdp)) == 1
  {
    var u := AnswerScript(env, t, sdp);
    assert SendsIn(u[3..]) == 1 by {
      assert u[3..][1..] == [];
    }
    assert SendsIn(u[2..]) == 1 by {
      assert u[2..][1..] == u[3..];
    }
    assert SendsIn(u[1..]) == 1 by {
      assert u[1..][1..] == u[2..];
    }
  }

  /** A received answer or candidate only updates the peer connection: nothing is sent. */
  lemma AnswerAndCandidateSendNothing(env: Env, s: Session, m: SignalMessage)
    requires s.status == Listening && (m.Answer? || m.IceCandidate?)
    ensures var r := Dispatch(env, s, Text(Some(m)));
      && SendsIn(r.trace) == SendsIn(s.trace)
      && (r.status == Listening ==> r.trace == s.trace + [if m.Answer? then SetRemoteDescription(m.payload) else AddIceCandidate(m.payload)])
  {
    var r := Dispatch(env, s, Text(Some(m)));
    SendsAppend(s.trace, r.trace[|s.trace|..]);
    assert r.trace == s.trace + r.trace[|s.trace|..];
  }

  /** Whether a relayed message's payload decodes as what its kind carries. */
  predicate PayloadDecodes(env: Env, m: SignalMessage)
    requires m.IsRelayed()
  {
    if m.IceCandidate? then env.decodesCandidate(m.payload) else env.decodesSdp(m.payload)
  }

  /**
    Frames that carry no offer, answer or candidate leave the session as it
    was; the end of the stream ends `start` with Ok; a payload that does not
    decode ends it with an error and calls nothing.
  */
  lemma LoopOutcomes(env: Env, s: Session, frame: Frame)
    requires s.status == Listening
    ensures frame.NonText? || frame.ReadError? || frame == Text(None) ==> Dispatch(env, s, frame) == s
    ensures frame.Text? && frame.decoded.Some? && !frame.decoded.value.IsRelayed() ==> Dispatch(env, s, frame) == s
    ensures frame.EndOfStream? ==> Dispatch(env, s, frame) == Session(s.trace, Succeeded)
    ensures frame.Text? && frame.decoded.Some? && frame.decoded.value.IsRelayed() && !PayloadDecodes(env, frame.decoded.value)
            ==> Dispatch(env, s, frame) == Session(s.trace, Failed)
  {
  }

  /** One send per encoded local candidate, addressed to "peer"; none otherwise. */
  lemma TrickleSendsOnePerCandidate(s: Session, encoded: Option<string>)
    ensures var r := Trickle(s, encoded);
      && r.status == s.status
      && SendsIn(r.trace) == SendsIn(s.trace) + (if encoded.Some? then 1 else 0)
      && (encoded.Some? ==> r.trace[|r.trace| - 1] == Send(IceCandidate(encoded.value, PeerTarget)))
  {
    if encoded.Some? {
      SendsAppend(s.trace, [Send(IceCandidate(encoded.value, PeerTarget))]);
    }
  }

  lemma {:induction false} SendsAppend(t: seq<Action>, u: seq<Action>)
    ensures SendsIn(t + u) == SendsIn(t) + SendsIn(u)
  {
    if t == [] {
      assert t + u == u;
    } else {
      assert (t + u)[1..] == t[1..] + u;
      SendsAppend(t[1..], u);
    }
  }

  lemma AnsweringKeepsOrder(env: Env, s: Session, sdp: string, url: string, deviceId: string, initiator: bool)
    requires SessionOk(s, url, deviceId, initiator) && s.status == Listening
    ensures SessionOk(Answering(env, s, sdp), url, deviceId, initiator)
  {
    var s1 := Do(env, s, SetRemoteDescription(sdp));
    DoLate(env, s, SetRemoteDescription(sdp), url, deviceId, initiator);
    if s1.status == Listening {
      var s2 := Do(env, s1, CreateAnswer);
      DoLate(env, s1, CreateAnswer, url, deviceId, initiator);
      if s2.status == Listening {
        var answer := env.description(s2.trace);
        var s3 := Do(env, s2, SetLocalDescription(answer));
        DoLate(env, s2, SetLocalDescription(answer), url, deviceId, initiator);
        if s3.status == Listening {
          DoLate(env, s3, Send(Answer(answer, PeerTarget)), url, deviceId, initiator);
        }
      }
    }
  }

  /** The receive loop keeps the order. */
  lemma DispatchKeepsOrder(env: Env, s: Session, frame: Frame, url: string, deviceId: string, initiator: bool)
    requires SessionOk(s, url, deviceId, initiator) && s.status == Listening
    ensures SessionOk(Dispatch(env, s, frame), url, deviceId, initiator)
  {
    if frame.Text? && frame.decoded.Some? {
      match frame.decoded.value {
        case Offer(payload, _) =>
          if env.decodesSdp(payload) {
            AnsweringKeepsOrder(env, s, payload, url, deviceId, initiator);
          }
        case Answer(payload, _) =>
          if env.decodesSdp(payload) {
            DoLate(env, s, SetRemoteDescription(payload), url, deviceId, initiator);
          }
        case IceCandidate(payload, _) =>
          if env.decodesCandidate(payload) {
            DoLate(env, s, AddIceCandidate(payload), url, deviceId, initiator);
          }
        case _ =>
      }
    }
  }

  /** So does the local-candidate callback. */
  lemma TrickleKeepsOrder(s: Session, encoded: Option<string>, url: string, deviceId: string, initiator: bool)
    requires SessionOk(s, url, deviceId, initiator) && s.status == Listening
    ensures SessionOk(Trickle(s, encoded), url, deviceId, initiator)
  {
    if encoded.Some? {
      AppendLate(s.trace, Send(IceCandidate(encoded.value, PeerTarget)), url, deviceId, initiator);
    }
  }

  /**
    What can happen to a listening client: a frame arrives, or the ICE agent
    reports a local candidate. Events come one at a time, so a candidate never
    falls inside a loop turn.
  */
  datatype Event = Incoming(frame: Frame) | LocalCandidate(encoded: Option<string>)

  /** A session driven by events; once `start` has returned, nothing more happens. */
  function Run(env: Env, s: Session, events: seq<Event>): Session
    decreases |events|
  {
    if events == [] || s.status != Listening then s
    else
      var next := match events[0]
        case Incoming(frame) => Dispatch(env, s, frame)
        case LocalCandidate(encoded) => Trickle(s, encoded);
      Run(env, next, events[1..])
  }

  /** Whatever arrives and whatever the world does, every session keeps the order. */
  lemma {:induction false} SessionKeepsOrder(env: Env, url: string, deviceId: string, initiator: bool, events: seq<Event>)
    ensures SessionOk(Run(env, Opening(env, url, deviceId, initiator), events), url, deviceId, initiator)
  {
    OpeningIsWellOrdered(env, url, deviceId, initiator);
    RunKeepsOrder(env, Opening(env, url, deviceId, initiator), events, url, deviceId, initiator);
  }

  lemma {:induction false} RunKeepsOrder(env: Env, s: Session, events: seq<Event>, url: string, deviceId: string, initiator: bool)
    requires SessionOk(s, url, deviceId, initiator)
    ensures SessionOk(Run(env, s, events), url, deviceId, initiator)
    decreases |events|
  {
    if events != [] && s.status == Listening {
      match events[0]
      case Incoming(frame) =>
        DispatchKeepsOrder(env, s, frame, url, deviceId, initiator);
        RunKeepsOrder(env, Dispatch(env, s, frame), events[1..], url, deviceId, initiator);
      case LocalCandidate(encoded) =>
        TrickleKeepsOrder(s, encoded, url, deviceId, initiator);
        RunKeepsOrder(env, Trickle(s, encoded), events[1..], url, deviceId, initiator);
    }
  }

  // ---------------------------------------------------------------------------
  // The client
  // ---------------------------------------------------------------------------

  /** `WebRtcClient` with the session its `start` drives. */
  class WebRtcClient {
    const roomId: string
    const isInitiator: bool
    const signalingUrl: string
    const env: Env
    /** The fresh id `start` joins under (`Uuid::new_v4`, transport.rs:61). */
    var deviceId: string
    var trace: seq<Action>
    var status: Status

    function Model(): Session
      reads this
    {
      Session(trace, status)
    }

    /** Nothing happens before `start`; from then on the order is kept. */
    ghost predicate Valid()
      reads this
    {
      if status == Idle then trace == []
      else SessionOk(Model(), SignalingAddress(signalingUrl, roomId), deviceId, isInitiator)
    }

    constructor(roomId: string, isInitiator: bool, signalingUrl: string, env: Env)
      ensures this.roomId == roomId && this.isInitiator == isInitiator
      ensures this.signalingUrl == signalingUrl && this.env == env
      ensures deviceId == "" && trace == [] && status == Idle
      ensures Valid()
    {
      this.roomId := roomId;
      this.isInitiator := isInitiator;
      this.signalingUrl := signalingUrl;
      this.env := env;
      deviceId := "";
      trace := [];
      status := Idle;
    }

    /** One fallible call. */
    method Perform(a: Action) returns (ok: bool)
      requires status != Failed
      modifies this`trace, this`status
      ensures Model() == Do(env, old(Model()), a)
      ensures ok <==> status != Failed
    {
      var succeeded := env.succeeds(trace, a);
      trace := trace + [a];
      if !succeeded {
        status := Failed;
      }
      ok := succeeded;
    }

    /** `start` up to its receive loop; `id` is the freshly generated device id. */
    method Start(id: string)
      requires status == Idle && Valid()
      modifies this`deviceId, this`trace, this`status
      ensures deviceId == id
      ensures Model() == Opening(env, SignalingAddress(signalingUrl, roomId), id, isInitiator)
      ensures Valid()
    {
      deviceId := id;
      var url := SignalingAddress(signalingUrl, roomId);
      OpeningIsWellOrdered(env, url, id, isInitiator);
      var ok := Perform(Connect(url));
      if !ok { return; }
      ok := Perform(Send(Join(id)));
      if !ok { return; }
      ok := Perform(NewPeerConnection);
      if !ok { return; }
      if isInitiator {
        ok := Perform(CreateDataChannel(DataChannelLabel));
        if !ok { return; }
        ok := Perform(CreateOffer);
        if !ok { return; }
        var offer := env.description(trace);
        ok := Perform(SetLocalDescription(offer));
        if !ok { return; }
        ok := Perform(Send(Offer(offer, PeerTarget)));
        if !ok { return; }
      }
      status := Listening;
    }

    /** The answer to a received offer whose payload decoded. */
    method AnswerOffer(sdp: string)
      requires status == Listening
      modifies this`trace, this`status
      ensures Model() == Answering(env, old(Model()), sdp)
    {
      var ok := Perform(SetRemoteDescription(sdp));
      if !ok { return; }
      ok := Perform(CreateAnswer);
      if !ok { return; }
      var answer := env.description(trace);
      ok := Perform(SetLocalDescription(answer));
      if !ok { return; }
      ok := Perform(Send(Answer(answer, PeerTarget)));
    }

    /** One turn of the receive loop. */
    method Receive(frame: Frame)
      requires status == Listening && Valid()
      modifies this`trace, this`status
      ensures Model() == Dispatch(env, old(Model()), frame)
      ensures Valid()
    {
      DispatchKeepsOrder(env, Model(), frame, SignalingAddress(signalingUrl, roomId), deviceId, isInitiator);
      match frame {
        case EndOfStream =>
          status := Succeeded;
        case Text(Some(m)) =>
          HandleMessage(m);
        case _ =>
      }
    }

    /** The `match` on a decoded message (transport.rs:209-241). */
    method HandleMessage(m: SignalMessage)
      requires status == Listening
      modifies this`trace, this`status
      ensures Model() == Handle(env, old(Model()), m)
    {
      match m {
        case Offer(payload, _) =>
          if env.decodesSdp(payload) {
            AnswerOffer(payload);
          } else {
            status := Failed;
          }
        case Answer(payload, _) =>
          if env.decodesSdp(payload) {
            var _ := Perform(SetRemoteDescription(payload));
          } else {
            status := Failed;
          }
        case IceCandidate(payload, _) =>
          if env.decodesCandidate(payload) {
            var _ := Perform(AddIceCandidate(payload));
          } else {
            status := Failed;
          }
        case _ =>
      }
    }

    /** The local-candidate callback, between two turns of the receive loop. */
    method OnIceCandidate(encoded: Option<string>)
      requires status == Listening && Valid()
      modifies this`trace
      ensures Model() == Trickle(old(Model()), encoded)
      ensures Valid()
    {
      TrickleKeepsOrder(Model(), encoded, SignalingAddress(signalingUrl, roomId), deviceId, isInitiator);
      if encoded.Some? {
        trace := trace + [Send(IceCandidate(encoded.value, PeerTarget))];
      }
    }
  }
}
