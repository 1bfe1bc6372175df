/** The card channel as the reader sees it: every command transmitted is
    appended to a log, and the card answers from a script of replies given
    in advance. */
module Transport {
  import opened Apdu

  /** PC/SC status "the smart card has been removed" (SCARD_W_REMOVED_CARD),
      reported once the script has no replies left. */
  const RemovedCard: nat := 0x8010_0069

  /** What one Transmit returns: the response bytes, or an error together
      with whatever bytes the library handed back beside it. */
  datatype Reply = Answer(data: Bytes) | Fault(data: Bytes, code: nat)

  /** The next reply of a script and the script left after it. */
  function Step(script: seq<Reply>): (r: (Reply, seq<Reply>))
    ensures script != [] ==> r.0 == script[0] && r.1 == script[1..]
    ensures script == [] ==> r.0 == Fault([], RemovedCard) && r.1 == []
  {
    if script == [] then (Fault([], RemovedCard), []) else (script[0], script[1..])
  }

  class Card {
    /** Every command transmitted so far, oldest first. */
    var sent: seq<Bytes>
    /** The replies the card will give, next one first. */
    var script: seq<Reply>

    constructor (replies: seq<Reply>)
      ensures sent == [] && script == replies
    {
      sent := [];
      script := replies;
    }

    /** Sends one command APDU and returns the card's next reply. */
    method Transmit(cmd: Bytes) returns (r: Reply)
      modifies this
      ensures sent == old(sent) + [cmd]
      ensures (r, script) == Step(old(script))
    {
      sent := sent + [cmd];
      r, script := Step(script).0, Step(script).1;
    }
  }
}
