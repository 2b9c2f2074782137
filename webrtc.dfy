/** The peer-connection registry and the signalling loop of webrtc.go,
    run sequentially: the mutex is left out, and pion's state-change
    callback is a call made outside a websocket session, so no connection
    changes state while `HandleWebSocket` runs. */
module WebRTC {
  import opened Wrappers
  import opened Signaling

  /** A pion peer connection, reduced to whether it has been closed. The
      peer id is the one its connection-state callback captured when it
      was created. */
  class PeerConnection {
    const peerId: string
    var closed: bool

    constructor (peerId: string)
      ensures this.peerId == peerId && !closed
    {
      this.peerId := peerId;
      closed := false;
    }

    /** `pc.Close()`. */
    method Close()
      modifies this
      ensures closed
    {
      closed := true;
    }
  }

  /** `after` is `before` with the entries of `ids` inserted or
      overwritten, and nothing else changed. */
  ghost predicate Extends(after: map<string, PeerConnection>, before: map<string, PeerConnection>, ids: set<string>) {
    && after.Keys == before.Keys + ids
    && forall id :: id in before && id !in ids ==> after[id] == before[id]
  }

  /** Storing one more connection under `id` extends by one more id. */
  lemma ExtendsStep(before: map<string, PeerConnection>, mid: map<string, PeerConnection>,
                    ids: set<string>, id: string, pc: PeerConnection)
    requires Extends(mid, before, ids)
    ensures Extends(mid[id := pc], before, ids + {id})
  {
  }

  /** How `handleICECandidate` ends. None of the endings writes a reply. */
  datatype CandidateOutcome = PeerNotFound | CandidateUnreadable | CandidateRejected | CandidateAdded

  class WebRTCManager {
    var peerConnections: map<string, PeerConnection>

    /** Every entry sits under the id its callback captured and is open:
        removal closes a connection only as it deletes the entry. */
    ghost predicate Valid()
      reads this, peerConnections.Values
    {
      forall id :: id in peerConnections ==>
        peerConnections[id].peerId == id && !peerConnections[id].closed
    }

    /** `NewWebRTCManager`. */
    constructor ()
      ensures Valid() && peerConnections == map[]
    {
      peerConnections := map[];
    }

    /** `createPeerConnection`: when pion creates the connection, it is
        stored under `peerId`, replacing (without closing) any connection
        already there; every other entry stays as it was. */
    method CreatePeerConnection(peerId: string, created: bool) returns (pc: PeerConnection?)
      requires Valid()
      modifies this
      ensures Valid()
      ensures pc != null <==> created
      ensures created ==>
        fresh(pc) && pc.peerId == peerId && !pc.closed
        && peerConnections == old(peerConnections)[peerId := pc]
      ensures !created ==> peerConnections == old(peerConnections)
      ensures unchanged(old(peerConnections).Values)
    {
      if !created {
        return null;
      }
      pc := new PeerConnection(peerId);
      peerConnections := peerConnections[peerId := pc];
    }

    /** `removePeerConnection`: a registered connection is closed and its
        entry deleted; an unknown id changes nothing, so a second call is a
        no-op. No other entry and no other connection is touched. */
    method RemovePeerConnection(peerId: string)
      requires Valid()
      modifies this, if peerId in peerConnections then {peerConnections[peerId]} else {}
      ensures Valid()
      ensures peerConnections == old(peerConnections) - {peerId}
      ensures peerId in old(peerConnections) ==> old(peerConnections)[peerId].closed
      ensures forall id :: id in peerConnections ==> unchanged(peerConnections[id])
    {
      if peerId in peerConnections {
        var pc := peerConnections[peerId];
        pc.Close();
        peerConnections := peerConnections - {peerId};
      }
    }

    /** The `OnConnectionStateChange` callback that `createPeerConnection`
        installs on `pc`: on Failed or Closed it removes whatever is
        registered under the id it captured, and every other state changes
        nothing. A connection that was since replaced by a newer offer
        therefore closes and removes its successor. */
    method OnConnectionStateChange(pc: PeerConnection, state: ConnectionState)
      requires Valid()
      modifies this, if pc.peerId in peerConnections then {peerConnections[pc.peerId]} else {}
      ensures Valid()
      ensures state == Failed || state == Closed ==> peerConnections == old(peerConnections) - {pc.peerId}
      ensures state != Failed && state != Closed ==> peerConnections == old(peerConnections)
      ensures (state == Failed || state == Closed) && pc.peerId in old(peerConnections) ==>
        old(peerConnections)[pc.peerId].closed
    {
      if state == Failed || state == Closed {
        RemovePeerConnection(pc.peerId);
      }
    }

    /** `handleOffer`: registers a fresh connection first, so the entry
        stays even when a later step fails; the "answer" reply, for the
        same peer id, is written only when every step succeeds. */
    method HandleOffer(msg: SignalingMessage, pion: PionOutcomes) returns (reply: Option<SignalingMessage>)
      requires Valid()
      modifies this
      ensures Valid()
      ensures pion.connectionCreated ==>
        msg.peerId in peerConnections && fresh(peerConnections[msg.peerId])
        && peerConnections == old(peerConnections)[msg.peerId := peerConnections[msg.peerId]]
      ensures !pion.connectionCreated ==> peerConnections == old(peerConnections)
      ensures reply.Some? <==> OfferNegotiated(pion)
      ensures reply.Some? ==>
        reply.value.msgType == Answer && reply.value.peerId == msg.peerId
        && reply.value.payload == Description(pion.answer.value)
    {
      var pc := CreatePeerConnection(msg.peerId, pion.connectionCreated);
      if pc == null {
        return None;
      }
      if !pion.offerDecoded {
        return None;
      }
      if !pion.remoteAccepted {
        return None;
      }
      if pion.answer.None? {
        return None;
      }
      var answer := pion.answer.value;
      if !pion.localAccepted {
        return None;
      }
      // A failure of the write itself is only logged.
      reply := Some(SignalingMessage(Answer, msg.peerId, Description(answer)));
    }

    /** `handleICECandidate`: a lookup only. An unknown id drops the
        candidate; otherwise it is decoded and handed to the connection. */
    method HandleICECandidate(msg: SignalingMessage, pion: PionOutcomes) returns (outcome: CandidateOutcome)
      ensures outcome == PeerNotFound <==> msg.peerId !in peerConnections
      ensures outcome == CandidateUnreadable <==> msg.peerId in peerConnections && !pion.candidateDecoded
      ensures outcome == CandidateRejected <==>
        msg.peerId in peerConnections && pion.candidateDecoded && !pion.candidateAccepted
      ensures outcome == CandidateAdded <==>
        msg.peerId in peerConnections && pion.candidateDecoded && pion.candidateAccepted
    {
      if msg.peerId !in peerConnections {
        return PeerNotFound;
      }
      if !pion.candidateDecoded {
        return CandidateUnreadable;
      }
      if !pion.candidateAccepted {
        return CandidateRejected;
      }
      return CandidateAdded;
    }

    /** The `switch` of `handleWebSocket` on one message: "offer" goes to
        `handleOffer`, "answer" is only logged, "ice-candidate" goes to
        `handleICECandidate`, and any other type is ignored. */
    method Dispatch(d: Delivery) returns (replies: seq<SignalingMessage>)
      requires Valid()
      modifies this
      ensures Valid()
      ensures replies == ReplyTo(d)
      ensures RegistersPeer(d) ==>
        d.msg.peerId in peerConnections && fresh(peerConnections[d.msg.peerId])
        && peerConnections == old(peerConnections)[d.msg.peerId := peerConnections[d.msg.peerId]]
      ensures !RegistersPeer(d) ==> peerConnections == old(peerConnections)
    {
      replies := [];
      if d.msg.msgType == Offer {
        var reply := HandleOffer(d.msg, d.pion);
        if reply.Some? {
          replies := [reply.value];
        }
      } else if d.msg.msgType == Answer {
        // `handleAnswer` only logs the message.
      } else if d.msg.msgType == IceCandidate {
        var _ := HandleICECandidate(d.msg, d.pion);
      }
    }

    /** The loop of `handleWebSocket`: dispatch messages until the first
        read error. Only offers change the registry (each registers a fresh
        connection); the loop never removes an entry, also not when it ends;
        the replies are the answers to the fully negotiated offers. */
    method HandleWebSocket(inbox: seq<Incoming>) returns (sent: seq<SignalingMessage>)
      requires Valid()
      modifies this
      ensures Valid()
      ensures sent == Replies(Delivered(inbox))
      ensures Extends(peerConnections, old(peerConnections), RegisteredIds(Delivered(inbox)))
      ensures forall id :: id in RegisteredIds(Delivered(inbox)) ==> fresh(peerConnections[id])
    {
      sent := [];
      var i := 0;
      ghost var delivered: seq<Delivery> := [];
      while i < |inbox| && inbox[i].Received?
        invariant 0 <= i <= |inbox|
        invariant Delivered(inbox) == delivered + Delivered(inbox[i..])
        invariant Valid()
        invariant sent == Replies(delivered)
        invariant Extends(peerConnections, old(peerConnections), RegisteredIds(delivered))
        invariant forall id :: id in RegisteredIds(delivered) ==> fresh(peerConnections[id])
        decreases |inbox| - i
      {
        var d := inbox[i].delivery;
        ghost var mid := peerConnections;
        var replies := Dispatch(d);
        if RegistersPeer(d) {
          ExtendsStep(old(peerConnections), mid, RegisteredIds(delivered), d.msg.peerId, peerConnections[d.msg.peerId]);
        }
        DispatchStep(delivered, d);
        DeliveredAdvance(inbox, i, delivered);
        sent := sent + replies;
        delivered := delivered + [d];
        i := i + 1;
      }
      DeliveredDone(inbox, i, delivered);
    }
  }
}
