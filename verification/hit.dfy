/**
 * Tag detections ("hits") and their arrival numbering. The C++ constructor
 * draws `seq_no` from a function-local static counter; here that counter is an
 * explicit field of a `HitSource`, and `Make` is `Hit::make`.
 */
module Hits {

  /** One detection: timestamp (seconds), Lotek ID, antenna, signal, position, tuning, code set, arrival number. */
  datatype Hit = Hit(
    ts: real, lid: int, antCode: int, sig: real, lat: real, lon: real,
    antFreq: real, codesetId: int, seqNo: int)

  /** `hs` are the hits numbered `first + 1`, `first + 2`, ... in order. */
  predicate NumberedFrom(hs: seq<Hit>, first: int) {
    forall i :: 0 <= i < |hs| ==> hs[i].seqNo == first + i + 1
  }

  /** The source of hits: the static `seq_no` counter of the `Hit` constructor. */
  class HitSource {
    /** The `seq_no` given to the most recently made hit (0 before any). */
    var lastSeqNo: int
    /** Every hit made so far, in construction order. */
    ghost var made: seq<Hit>

    ghost predicate Valid()
      reads this
    {
      NumberedFrom(made, 0) && lastSeqNo == |made|
    }

    constructor()
      ensures Valid() && lastSeqNo == 0 && made == []
    {
      lastSeqNo := 0;
      made := [];
    }

    /** `Hit::make`: a hit with exactly the given fields and the next sequence number. */
    method Make(ts: real, lid: int, antCode: int, sig: real, lat: real, lon: real,
                antFreq: real, codesetId: int) returns (h: Hit)
      requires Valid()
      modifies this
      ensures Valid()
      ensures h.ts == ts && h.lid == lid && h.antCode == antCode && h.sig == sig
      ensures h.lat == lat && h.lon == lon && h.antFreq == antFreq && h.codesetId == codesetId
      ensures h.seqNo == old(lastSeqNo) + 1 && lastSeqNo == h.seqNo
      ensures made == old(made) + [h]
      ensures forall k :: 0 <= k < |old(made)| ==> old(made)[k].seqNo < h.seqNo
    {
      lastSeqNo := lastSeqNo + 1;
      h := Hit(ts, lid, antCode, sig, lat, lon, antFreq, codesetId, lastSeqNo);
      made := made + [h];
    }
  }
}
