/** The signalling vocabulary of webrtc.go and the specification of what
    one websocket session does: which messages are read before the loop
    stops, which peers get registered, and which answers are written back.
    The pion library's verdicts on each call are inputs. */
module Signaling {
  import opened Wrappers

  /** pion's `SessionDescription`: its type ("offer", "answer", ...) and SDP text. */
  datatype SessionDescription = SessionDescription(sdpType: string, sdp: string)

  /** The `payload` field: an answer this side created, or JSON from the client. */
  datatype Payload = Description(description: SessionDescription) | Json(text: string)

  /** `SignalingMessage` as it travels on the websocket. */
  datatype SignalingMessage = SignalingMessage(msgType: string, peerId: string, payload: Payload)

  const Offer: string := "offer"
  const Answer: string := "answer"
  const IceCandidate: string := "ice-candidate"

  /** pion's `PeerConnectionState`. */
  datatype ConnectionState = Unknown | New | Connecting | Connected | Disconnected | Failed | Closed

  /** What pion (and the JSON round trip of the payload) answers to each call
      made while one message is handled. */
  datatype PionOutcomes = PionOutcomes(
    connectionCreated: bool,             // webrtc.NewPeerConnection
    offerDecoded: bool,                  // payload decoded as a SessionDescription
    remoteAccepted: bool,                // SetRemoteDescription
    answer: Option<SessionDescription>,  // CreateAnswer
    localAccepted: bool,                 // SetLocalDescription
    candidateDecoded: bool,              // payload decoded as an ICECandidateInit
    candidateAccepted: bool              // AddICECandidate
  )

  /** Every step of `handleOffer` succeeds. */
  predicate OfferNegotiated(p: PionOutcomes) {
    p.connectionCreated && p.offerDecoded && p.remoteAccepted && p.answer.Some? && p.localAccepted
  }

  /** The reply `handleOffer` writes for `peerId` once it holds an answer. */
  function AnswerTo(peerId: string, answer: SessionDescription): SignalingMessage {
    SignalingMessage(Answer, peerId, Description(answer))
  }

  /** One message read off the websocket, with pion's verdicts for it. */
  datatype Delivery = Delivery(msg: SignalingMessage, pion: PionOutcomes)

  /** One call of `conn.ReadJSON`: a decoded message, or an error. */
  datatype Incoming = Received(delivery: Delivery) | ReadFailed

  /** The messages the loop of `handleWebSocket` dispatches: those read
      before the first read error. */
  function Delivered(inbox: seq<Incoming>): seq<Delivery>
    decreases |inbox|
  {
    if |inbox| == 0 then []
    else match inbox[0]
      case ReadFailed => []
      case Received(d) => [d] + Delivered(inbox[1..])
  }

  /** Delivered is exactly the run of successful reads at the front of the
      inbox, ended by a read error unless the inbox is used up. */
  lemma {:induction false} DeliveredIsLeadingReads(inbox: seq<Incoming>)
    ensures |Delivered(inbox)| <= |inbox|
    ensures forall k :: 0 <= k < |Delivered(inbox)| ==> inbox[k] == Received(Delivered(inbox)[k])
    ensures |Delivered(inbox)| < |inbox| ==> inbox[|Delivered(inbox)|] == ReadFailed
    decreases |inbox|
  {
    if |inbox| > 0 && inbox[0].Received? {
      DeliveredIsLeadingReads(inbox[1..]);
      assert forall k :: 1 <= k < |inbox| ==> inbox[k] == inbox[1..][k - 1];
    }
  }

  /** Whether dispatching `d` puts a connection in the registry. */
  predicate RegistersPeer(d: Delivery) {
    d.msg.msgType == Offer && d.pion.connectionCreated
  }

  /** What dispatching `d` writes back on the websocket. */
  function ReplyTo(d: Delivery): seq<SignalingMessage> {
    if d.msg.msgType == Offer && OfferNegotiated(d.pion) then [AnswerTo(d.msg.peerId, d.pion.answer.value)]
    else []
  }

  /** Everything written back while dispatching `ds` in order. */
  function Replies(ds: seq<Delivery>): seq<SignalingMessage>
    decreases |ds|
  {
    if |ds| == 0 then [] else Replies(ds[..|ds| - 1]) + ReplyTo(ds[|ds| - 1])
  }

  /** The ids that dispatching `ds` registers (inserts or overwrites). */
  function RegisteredIds(ds: seq<Delivery>): set<string>
    decreases |ds|
  {
    if |ds| == 0 then {}
    else RegisteredIds(ds[..|ds| - 1]) + (if RegistersPeer(ds[|ds| - 1]) then {ds[|ds| - 1].msg.peerId} else {})
  }

  /** The offers among `ds`, in order. */
  function Offers(ds: seq<Delivery>): seq<Delivery>
    decreases |ds|
  {
    if |ds| == 0 then []
    else Offers(ds[..|ds| - 1]) + (if ds[|ds| - 1].msg.msgType == Offer then [ds[|ds| - 1]] else [])
  }

  /** One more successful read extends what has been dispatched so far. */
  lemma DeliveredAdvance(inbox: seq<Incoming>, i: nat, delivered: seq<Delivery>)
    requires i < |inbox| && inbox[i].Received?
    requires Delivered(inbox) == delivered + Delivered(inbox[i..])
    ensures Delivered(inbox) == (delivered + [inbox[i].delivery]) + Delivered(inbox[i + 1..])
  {
    assert inbox[i..][1..] == inbox[i + 1..];
    assert Delivered(inbox[i..]) == [inbox[i].delivery] + Delivered(inbox[i + 1..]);
  }

  /** At the end of the inbox or at a read error, nothing more is dispatched. */
  lemma DeliveredDone(inbox: seq<Incoming>, i: nat, delivered: seq<Delivery>)
    requires i <= |inbox| && (i == |inbox| || inbox[i] == ReadFailed)
    requires Delivered(inbox) == delivered + Delivered(inbox[i..])
    ensures Delivered(inbox) == delivered
  {
    if i < |inbox| {
      assert inbox[i..][0] == ReadFailed;
    }
    assert delivered + [] == delivered;
  }

  /** Dispatching one more message appends its effect. */
  lemma DispatchStep(ds: seq<Delivery>, d: Delivery)
    ensures Replies(ds + [d]) == Replies(ds) + ReplyTo(d)
    ensures RegisteredIds(ds + [d]) == RegisteredIds(ds) + (if RegistersPeer(d) then {d.msg.peerId} else {})
  {
    assert (ds + [d])[..|ds|] == ds;
  }

  /** An id is registered exactly when some offer for it got a connection. */
  lemma {:induction false} RegisteredIdsAreCreatedOffers(ds: seq<Delivery>, id: string)
    ensures id in RegisteredIds(ds) <==>
      exists j :: 0 <= j < |ds| && RegistersPeer(ds[j]) && ds[j].msg.peerId == id
    decreases |ds|
  {
    if |ds| > 0 {
      var init := ds[..|ds| - 1];
      RegisteredIdsAreCreatedOffers(init, id);
      assert forall j :: 0 <= j < |init| ==> init[j] == ds[j];
    }
  }

  /** Every reply is an "answer" to an offer of the same session whose
      negotiation fully succeeded, for the same peer id. */
  lemma {:induction false} RepliesAnswerNegotiatedOffers(ds: seq<Delivery>)
    ensures forall k :: 0 <= k < |Replies(ds)| ==>
      Replies(ds)[k].msgType == Answer &&
      exists j :: 0 <= j < |ds| && ds[j].msg.msgType == Offer && OfferNegotiated(ds[j].pion)
        && Replies(ds)[k] == AnswerTo(ds[j].msg.peerId, ds[j].pion.answer.value)
    decreases |ds|
  {
    if |ds| > 0 {
      var init := ds[..|ds| - 1];
      RepliesAnswerNegotiatedOffers(init);
      assert forall j :: 0 <= j < |init| ==> init[j] == ds[j];
      var r := Replies(ds);
      assert r == Replies(init) + ReplyTo(ds[|ds| - 1]);
      forall k | 0 <= k < |r|
        ensures r[k].msgType == Answer &&
          exists j :: 0 <= j < |ds| && ds[j].msg.msgType == Offer && OfferNegotiated(ds[j].pion)
            && r[k] == AnswerTo(ds[j].msg.peerId, ds[j].pion.answer.value)
      {
        if k < |Replies(init)| {
          assert r[k] == Replies(init)[k];
        } else {
          assert r[k] == ReplyTo(ds[|ds| - 1])[0];
          var j := |ds| - 1;
          assert ds[j].msg.msgType == Offer && OfferNegotiated(ds[j].pion);
        }
      }
    }
  }

  /** Conversely, every fully negotiated offer is answered. */
  lemma {:induction false} NegotiatedOfferIsAnswered(ds: seq<Delivery>, j: nat)
    requires j < |ds| && ds[j].msg.msgType == Offer && OfferNegotiated(ds[j].pion)
    ensures AnswerTo(ds[j].msg.peerId, ds[j].pion.answer.value) in Replies(ds)
    decreases |ds|
  {
    var init := ds[..|ds| - 1];
    if j < |ds| - 1 {
      assert init[j] == ds[j];
      NegotiatedOfferIsAnswered(init, j);
    }
    assert Replies(ds) == Replies(init) + ReplyTo(ds[|ds| - 1]);
  }

  /** Only offers matter: messages of type "answer", "ice-candidate" or any
      other type neither register a peer nor produce a reply. */
  lemma {:induction false} OnlyOffersMatter(ds: seq<Delivery>)
    ensures Replies(Offers(ds)) == Replies(ds)
    ensures RegisteredIds(Offers(ds)) == RegisteredIds(ds)
    decreases |ds|
  {
    if |ds| > 0 {
      var init := ds[..|ds| - 1];
      var last := ds[|ds| - 1];
      OnlyOffersMatter(init);
      if last.msg.msgType == Offer {
        var o := Offers(init) + [last];
        assert Offers(ds) == o;
        assert o[..|o| - 1] == Offers(init);
      } else {
        assert Offers(ds) == Offers(init);
        assert ReplyTo(last) == [];
      }
    }
  }

  /** A read error ends the session: nothing after it is dispatched. */
  lemma ReadErrorEndsLoop(before: seq<Incoming>, after: seq<Incoming>)
    requires forall k :: 0 <= k < |before| ==> before[k].Received?
    ensures Delivered(before + [ReadFailed] + after) == Delivered(before)
    ensures |Delivered(before)| == |before|
  {
    var inbox := before + [ReadFailed] + after;
    DeliveredIsLeadingReads(inbox);
    DeliveredIsLeadingReads(before);
    var ds, es := Delivered(inbox), Delivered(before);
    assert inbox[|before|] == ReadFailed;
    assert forall k :: 0 <= k < |before| ==> inbox[k] == before[k];
    assert |ds| == |before|;
    assert |es| == |before|;
    assert forall k :: 0 <= k < |ds| ==> Received(ds[k]) == Received(es[k]);
  }
}
