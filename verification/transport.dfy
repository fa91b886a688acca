/** What the stream consumer exchanges with the network: the last name component of a
    request or response (all of them share the stream's name prefix), the two kinds of
    response, and the Network object with its filter that lets each response name
    through once. */
module Transport {
  import opened Adts

  datatype Option<T> = None | Some(value: T)

  /** The last component of a name: a segment number, or anything that does not decode
      as one (toSegment throws EncodingException). */
  datatype Component = SegmentComponent(segNum: nat) | OtherComponent

  /** The content of a Data packet: audio (ADTS frames, with the FinalBlockId meta-info
      field when the producer set it), or an application NACK whose payload carries the
      stream's final segment number, already decoded. */
  datatype Payload =
    | AudioData(content: seq<byte>, finalBlockId: Option<Component>)
    | AppNack(finalSegNum: int)

  datatype Data = Data(name: Component, payload: Payload)

  /** An Interest for segment `segNum` of the stream with the given lifetime. */
  datatype Interest = Interest(segNum: int, lifetimeMs: int)

  /** The outcome of offering a response name to the duplicate filter. */
  datatype Admission = Admission(admitted: bool, seen: set<Component>)

  /** The filter in the response callback: a name is passed on the first time it is seen
      and recorded; a name already recorded is dropped. What this means over a run of
      responses is stated by DuplicateNeverAdmitted and AdmitAllGrows below. */
  function Admit(seen: set<Component>, name: Component): (a: Admission)
    ensures a.admitted <==> name !in seen
    ensures a.seen == seen + {name}
  {
    if name !in seen then Admission(true, seen + {name}) else Admission(false, seen)
  }

  /** A second response with the same name never gets through, whatever came between. */
  lemma DuplicateNeverAdmitted(seen: set<Component>, name: Component, between: seq<Component>)
    ensures !Admit(AdmitAll(Admit(seen, name).seen, between), name).admitted
  {
    AdmitAllGrows(Admit(seen, name).seen, between);
  }

  /** The names seen after offering `names` in order. */
  function AdmitAll(seen: set<Component>, names: seq<Component>): set<Component>
    decreases |names|
  {
    if names == [] then seen else AdmitAll(Admit(seen, names[0]).seen, names[1..])
  }

  lemma {:induction false} AdmitAllGrows(seen: set<Component>, names: seq<Component>)
    ensures seen <= AdmitAll(seen, names)
    decreases |names|
  {
    if names != [] {
      AdmitAllGrows(Admit(seen, names[0]).seen, names[1..]);
    }
  }

  /** StreamConsumer.Network without its face and key chain: the set of response names
      received, the closed flag, and the Interests handed to the face so far. */
  class Network {
    var recvDatas: set<Component>
    var closed: bool
    /** The Interests expressed on the face, oldest first. */
    var expressed: seq<Interest>

    constructor ()
      ensures recvDatas == {} && !closed && expressed == []
    {
      recvDatas := {};
      closed := false;
      expressed := [];
    }

    /** Idempotent. */
    method Close()
      modifies this
      ensures closed && recvDatas == old(recvDatas) && expressed == old(expressed)
    {
      if closed {
        return;
      }
      closed := true;
    }

    /** sendInterest: the Interest is expressed whether or not the network is closed. */
    method SendInterest(i: Interest)
      modifies this
      ensures expressed == old(expressed) + [i]
      ensures recvDatas == old(recvDatas) && closed == old(closed)
    {
      expressed := expressed + [i];
    }

    /** The start of the response callback: `admitted` tells whether the response goes on
        to the fetcher. */
    method AcceptData(name: Component) returns (admitted: bool)
      modifies this
      ensures Admission(admitted, recvDatas) == Admit(old(recvDatas), name)
      ensures closed == old(closed) && expressed == old(expressed)
    {
      if name !in recvDatas {
        recvDatas := recvDatas + {name};
        admitted := true;
      } else {
        admitted := false;
      }
    }
  }
}
