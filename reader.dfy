/** The two-phase field read (getData), the text read built on it
    (getString) and the photo assembler (getPhoto), each as a specification
    function over the card's script of replies and, for the two that only
    use the card, as a method over the Card object. */
module Reader {
  import opened Apdu
  import opened Transport
  import opened Text

  /** The error values a read can report. */
  datatype Error = TransportError(code: nat) | DecodeError

  /** How a call ends: it returns a value together with an error (None for
      no error), or the program panics on an index or slice out of range. */
  datatype Completion<+T> = Done(value: T, err: Option<Error>) | Panic

  /** A call's completion, the commands it transmitted and the replies left. */
  datatype Run<+T> = Run(result: Completion<T>, sent: seq<Bytes>, rest: seq<Reply>)

  // ---------------------------------------------------------------------
  // getData

  /** getData: transmit the locate command and ignore its reply, transmit
      GET RESPONSE with the locate command's Le, and strip the trailer. A
      fault of the first exchange returns an empty payload; a fault of the
      second returns what Transmit handed back; both return the error. */
  function FetchField(script: seq<Reply>, cmd: Bytes, req: Bytes): (r: Run<Bytes>)
    requires |cmd| > 0
    ensures 1 <= |r.sent| <= 2 && r.sent[0] == cmd
    ensures |r.sent| == 2 ==> r.sent[1] == GetResponse(req, cmd)
    ensures r.result.Done? && r.result.err.None? ==> |r.sent| == 2
  {
    var (ack, s1) := Step(script);
    if ack.Fault? then
      Run(Done([], Some(TransportError(ack.code))), [cmd], s1)
    else
      var (reply, s2) := Step(s1);
      var sent := [cmd, GetResponse(req, cmd)];
      if reply.Fault? then
        Run(Done(reply.data, Some(TransportError(reply.code))), sent, s2)
      else
        match StripTrailer(reply.data)
        case None => Run(Panic, sent, s2)
        case Some(payload) => Run(Done(payload, None), sent, s2)
  }

  /** If the locate exchange fails, nothing more is sent and the error comes
      back with an empty payload. */
  lemma FetchFieldLocateFault(script: seq<Reply>, cmd: Bytes, req: Bytes)
    requires |cmd| > 0
    requires Step(script).0.Fault?
    ensures FetchField(script, cmd, req) ==
            Run(Done([], Some(TransportError(Step(script).0.code))), [cmd], Step(script).1)
  {
  }

  /** If the GET RESPONSE exchange fails, the error comes back with the bytes
      Transmit returned beside it, unstripped. */
  lemma FetchFieldRetrieveFault(script: seq<Reply>, cmd: Bytes, req: Bytes)
    requires |cmd| > 0
    requires Step(script).0.Answer? && Step(Step(script).1).0.Fault?
    ensures var f := Step(Step(script).1).0;
            FetchField(script, cmd, req) ==
            Run(Done(f.data, Some(TransportError(f.code))), [cmd, GetResponse(req, cmd)],
                Step(Step(script).1).1)
  {
  }

  /** An answered GET RESPONSE shorter than its status trailer panics the
      read, after both commands were sent. */
  lemma FetchFieldShortReply(script: seq<Reply>, cmd: Bytes, req: Bytes)
    requires |cmd| > 0
    requires Step(script).0.Answer?
    requires Step(Step(script).1).0.Answer? && |Step(Step(script).1).0.data| < 2
    ensures FetchField(script, cmd, req) == Run(Panic, [cmd, GetResponse(req, cmd)], Step(Step(script).1).1)
  {
  }

  /** Once the locate exchange succeeds the GET RESPONSE sent is five bytes
      for a four-byte prefix and ends with the locate command's Le. */
  lemma FetchFieldRetrieve(script: seq<Reply>, cmd: Bytes, req: Bytes)
    requires |cmd| > 0
    requires Step(script).0.Answer?
    ensures var r := FetchField(script, cmd, req);
            |r.sent| == 2 && r.sent[1][..|req|] == req &&
            |r.sent[1]| == |req| + 1 && r.sent[1][|req|] == cmd[|cmd| - 1]
  {
  }

  /** A read succeeds exactly when both exchanges are answered and the second
      answer holds a trailer; the payload is then that answer less its last
      two bytes. */
  lemma FetchFieldPayload(script: seq<Reply>, cmd: Bytes, req: Bytes, payload: Bytes)
    requires |cmd| > 0
    ensures FetchField(script, cmd, req).result == Done(payload, None) <==>
            |script| >= 2 && script[0].Answer? && script[1].Answer? &&
            exists sw: Bytes :: |sw| == 2 && script[1].data == payload + sw
  {
    if |script| >= 2 && script[0].Answer? && script[1].Answer? {
      var d := script[1].data;
      if exists sw: Bytes :: |sw| == 2 && d == payload + sw {
        var sw: Bytes :| |sw| == 2 && d == payload + sw;
        StripTrailerOfTrailed(payload, sw);
      }
      if FetchField(script, cmd, req).result == Done(payload, None) {
        StripTrailerSplits(d);
        assert |d[|d| - 2..]| == 2 && d == payload + d[|d| - 2..];
      }
    }
  }

  /** The reply to the locate command is discarded: its bytes never matter. */
  lemma FetchFieldIgnoresAck(s: seq<Reply>, x: Bytes, y: Bytes, cmd: Bytes, req: Bytes)
    requires |cmd| > 0
    ensures FetchField([Answer(x)] + s, cmd, req) == FetchField([Answer(y)] + s, cmd, req)
  {
    assert ([Answer(x)] + s)[1..] == s == ([Answer(y)] + s)[1..];
  }

  /** A read consumes one reply per command it sends. */
  lemma FetchFieldConsumes(script: seq<Reply>, cmd: Bytes, req: Bytes)
    requires |cmd| > 0
    requires |script| >= 2
    ensures var r := FetchField(script, cmd, req); r.rest == script[|r.sent|..]
  {
  }

  /** getData, transmitting over the card. */
  method GetData(card: Card, cmd: Bytes, req: Bytes) returns (c: Completion<Bytes>)
    requires |cmd| > 0
    modifies card
    ensures var r := FetchField(old(card.script), cmd, req);
            c == r.result && card.sent == old(card.sent) + r.sent && card.script == r.rest
  {
    var ack := card.Transmit(cmd);
    if ack.Fault? {
      return Done([], Some(TransportError(ack.code)));
    }
    var get := GetResponse(req, cmd);
    var reply := card.Transmit(get);
    if reply.Fault? {
      return Done(reply.data, Some(TransportError(reply.code)));
    }
    var payload := StripTrailer(reply.data);
    if payload.None? {
      return Panic;
    }
    return Done(payload.value, None);
  }

  // ---------------------------------------------------------------------
  // getString

  /** getString: read the field with the session's GET RESPONSE prefix,
      decode it and trim its padding; any error gives the empty text. */
  function FetchText(script: seq<Reply>, cmd: Bytes, prefix: Bytes,
                     decode: Bytes -> Option<string>): (r: Run<string>)
    requires |cmd| > 0
    ensures var f := FetchField(script, cmd, prefix); r.sent == f.sent && r.rest == f.rest
    ensures r.result.Done? && r.result.err.Some? ==> r.result.value == ""
    ensures r.result.Done? ==> Unpadded(r.result.value)
    ensures var f := FetchField(script, cmd, prefix);
            (r.result.Panic? <==> f.result.Panic?) &&
            (f.result.Done? && f.result.err.Some? ==> r.result == Done("", f.result.err))
  {
    var f := FetchField(script, cmd, prefix);
    match f.result
    case Panic => Run(Panic, f.sent, f.rest)
    case Done(raw, Some(e)) => Run(Done("", Some(e)), f.sent, f.rest)
    case Done(raw, None) =>
      match decode(raw)
      case None => Run(Done("", Some(DecodeError)), f.sent, f.rest)
      case Some(t) =>
        TrimSplits(t);
        Run(Done(Trim(t), None), f.sent, f.rest)
  }

  /** A text read succeeds exactly when the field read and the decoding do,
      and its value is then the decoded text less its padding. */
  lemma FetchTextSuccess(script: seq<Reply>, cmd: Bytes, prefix: Bytes,
                         decode: Bytes -> Option<string>, v: string)
    requires |cmd| > 0
    ensures FetchText(script, cmd, prefix, decode).result == Done(v, None) <==>
            exists raw, t ::
              FetchField(script, cmd, prefix).result == Done(raw, None) &&
              decode(raw) == Some(t) && v == Trim(t)
  {
    var f := FetchField(script, cmd, prefix);
    if FetchText(script, cmd, prefix, decode).result == Done(v, None) {
      var raw := f.result.value;
      assert f.result == Done(raw, None) && decode(raw).Some?;
      var t := decode(raw).value;
      assert decode(raw) == Some(t) && v == Trim(t);
    }
    if exists raw, t :: f.result == Done(raw, None) && decode(raw) == Some(t) && v == Trim(t) {
      var raw, t :| f.result == Done(raw, None) && decode(raw) == Some(t) && v == Trim(t);
      assert FetchText(script, cmd, prefix, decode).result == Done(Trim(t), None);
    }
  }

  // ---------------------------------------------------------------------
  // getPhoto

  predicate AllNonEmpty(cmds: seq<Bytes>)
  {
    forall i :: 0 <= i < |cmds| ==> |cmds[i]| > 0
  }

  /** getPhoto: every segment is read in table order and whatever each read
      returns is appended, its error notwithstanding. The loop's error is a
      fresh variable, so the function's own error result stays nil. */
  function FetchPhoto(script: seq<Reply>, segs: seq<Bytes>, req: Bytes): (r: Run<Bytes>)
    requires AllNonEmpty(segs)
    ensures r.result.Done? ==> r.result.err.None?
    decreases |segs|
  {
    if segs == [] then Run(Done([], None), [], script)
    else
      var f := FetchField(script, segs[0], req);
      if f.result.Panic? then Run(Panic, f.sent, f.rest)
      else
        var tail := FetchPhoto(f.rest, segs[1..], req);
        Then(f.result.value, f.sent, tail)
  }

  /** Joins what earlier reads gave and sent to the run of the reads after. */
  function Then(acc: Bytes, sent: seq<Bytes>, tail: Run<Bytes>): (r: Run<Bytes>)
    ensures r.sent == sent + tail.sent && r.rest == tail.rest
    ensures r.result.Panic? <==> tail.result.Panic?
    ensures tail.result.Done? ==> r.result == Done(acc + tail.result.value, None)
  {
    match tail.result
    case Panic => Run(Panic, sent + tail.sent, tail.rest)
    case Done(v, _) => Run(Done(acc + v, None), sent + tail.sent, tail.rest)
  }

  /** Joining in two steps is joining once. */
  lemma ThenThen(acc: Bytes, sent: seq<Bytes>, v: Bytes, more: seq<Bytes>, tail: Run<Bytes>)
    ensures Then(acc, sent, Then(v, more, tail)) == Then(acc + v, sent + more, tail)
  {
    assert sent + (more + tail.sent) == (sent + more) + tail.sent;
    if tail.result.Done? {
      assert acc + (v + tail.result.value) == (acc + v) + tail.result.value;
    }
  }

  /** Concatenation regroups freely. */
  lemma AppendAssoc<T>(a: seq<T>, b: seq<T>, c: seq<T>)
    ensures (a + b) + c == a + (b + c)
  {
  }

  /** The photo read from segment i on is the read of segment i, then the
      photo read from segment i + 1 on. */
  lemma PhotoStep(script: seq<Reply>, segs: seq<Bytes>, i: nat, req: Bytes)
    requires AllNonEmpty(segs) && i < |segs|
    ensures var f := FetchField(script, segs[i], req);
            FetchPhoto(script, segs[i..], req) ==
            if f.result.Panic? then Run(Panic, f.sent, f.rest)
            else Then(f.result.value, f.sent, FetchPhoto(f.rest, segs[i + 1..], req))
  {
    assert segs[i..][0] == segs[i] && segs[i..][1..] == segs[i + 1..];
  }

  /** getPhoto, transmitting over the card. */
  method GetPhoto(card: Card, segs: seq<Bytes>, req: Bytes) returns (c: Completion<Bytes>)
    requires AllNonEmpty(segs)
    modifies card
    ensures var r := FetchPhoto(old(card.script), segs, req);
            c == r.result && card.sent == old(card.sent) + r.sent && card.script == r.rest
  {
    ghost var whole := FetchPhoto(card.script, segs, req);
    ghost var sent0 := card.sent;
    ghost var done: seq<Bytes> := [];
    var resp: Bytes := [];
    var i := 0;
    assert segs[i..] == segs && card.sent == sent0 + done;
    assert whole.result.Done? ==> [] + whole.result.value == whole.result.value;
    while i < |segs|
      invariant 0 <= i <= |segs|
      invariant card.sent == sent0 + done
      invariant whole == Then(resp, done, FetchPhoto(card.script, segs[i..], req))
    {
      ghost var f := FetchField(card.script, segs[i], req);
      PhotoStep(card.script, segs, i, req);
      var tmp := GetData(card, segs[i], req);
      AppendAssoc(sent0, done, f.sent);
      if tmp.Panic? {
        return Panic;
      }
      ThenThen(resp, done, tmp.value, f.sent, FetchPhoto(card.script, segs[i + 1..], req));
      resp := resp + tmp.value;
      done := done + f.sent;
      i := i + 1;
    }
    assert segs[i..] == [] && resp + [] == resp && done + [] == done;
    return Done(resp, None);
  }
}
