/** What the photo assembler produces from a card that answers each segment
    read in one of three ways: both exchanges answered, the locate exchange
    failing, or the GET RESPONSE exchange failing. */
module Assembly {
  import opened Apdu
  import opened Transport
  import opened Reader
  import Catalog

  /** The replies the card gives to one segment read. A failed locate
      exchange may come with bytes, which getData discards. */
  datatype Segment =
    | Served(ack: Bytes, reply: Bytes)
    | LocateFault(discarded: Bytes, code: nat)
    | RetrieveFault(ack: Bytes, partial: Bytes, code: nat)

  /** The card's replies for one segment, in the order they are consumed. */
  function Replies(g: Segment): seq<Reply>
  {
    match g
    case Served(ack, reply) => [Answer(ack), Answer(reply)]
    case LocateFault(discarded, code) => [Fault(discarded, code)]
    case RetrieveFault(ack, partial, code) => [Answer(ack), Fault(partial, code)]
  }

  /** The card's replies for a run of segments. */
  function Script(gs: seq<Segment>): seq<Reply>
  {
    if gs == [] then [] else Replies(gs[0]) + Script(gs[1..])
  }

  /** A served segment whose reply holds its status trailer. */
  predicate Trailed(g: Segment)
  {
    g.Served? ==> |g.reply| >= 2
  }

  /** Every segment of a run holds its trailer. */
  predicate AllTrailed(gs: seq<Segment>)
  {
    forall k :: 0 <= k < |gs| ==> Trailed(gs[k])
  }

  /** The bytes one segment adds to the photo: the reply less its trailer,
      nothing when locating failed, and the bytes returned with the error
      when retrieving failed. */
  function Contribution(g: Segment): Bytes
    requires Trailed(g)
  {
    match g
    case Served(_, reply) => reply[..|reply| - 2]
    case LocateFault(_, _) => []
    case RetrieveFault(_, partial, _) => partial
  }

  /** The contributions of a run of segments, in order. */
  function Contributions(gs: seq<Segment>): Bytes
    requires AllTrailed(gs)
  {
    if gs == [] then [] else Contribution(gs[0]) + Contributions(gs[1..])
  }

  /** The commands one segment read transmits. */
  function Commands(g: Segment, cmd: Bytes, req: Bytes): seq<Bytes>
    requires |cmd| > 0
  {
    if g.LocateFault? then [cmd] else [cmd, GetResponse(req, cmd)]
  }

  /** The commands a run of segment reads transmits. */
  function Log(gs: seq<Segment>, cmds: seq<Bytes>, req: Bytes): seq<Bytes>
    requires |gs| == |cmds| && AllNonEmpty(cmds)
  {
    if gs == [] then [] else Commands(gs[0], cmds[0], req) + Log(gs[1..], cmds[1..], req)
  }

  /** One segment read on its own replies. */
  lemma FetchSegment(g: Segment, cmd: Bytes, req: Bytes, rest: seq<Reply>)
    requires |cmd| > 0 && Trailed(g)
    ensures FetchField(Replies(g) + rest, cmd, req).result.Done?
    ensures FetchField(Replies(g) + rest, cmd, req).result.value == Contribution(g)
    ensures FetchField(Replies(g) + rest, cmd, req).sent == Commands(g, cmd, req)
    ensures FetchField(Replies(g) + rest, cmd, req).rest == rest
    ensures FetchField(Replies(g) + rest, cmd, req).result.err.None? <==> g.Served?
  {
    var s := Replies(g) + rest;
    assert s[0] == Replies(g)[0];
    if !g.LocateFault? {
      assert s[1] == Replies(g)[1] && s[2..] == rest;
    } else {
      assert s[1..] == rest;
    }
  }

  /** The replies of a run start with those of its first segment. */
  lemma ScriptCons(gs: seq<Segment>, rest: seq<Reply>)
    requires gs != []
    ensures Script(gs) + rest == Replies(gs[0]) + (Script(gs[1..]) + rest)
  {
    AppendAssoc(Replies(gs[0]), Script(gs[1..]), rest);
  }

  /** The photo is the concatenation, in table order, of what each segment
      contributes; every command pair is sent in order; the error stays nil. */
  lemma {:induction false} PhotoIsConcatenation(gs: seq<Segment>, cmds: seq<Bytes>, req: Bytes,
                                                rest: seq<Reply>)
    requires |gs| == |cmds| && AllNonEmpty(cmds)
    requires AllTrailed(gs)
    ensures FetchPhoto(Script(gs) + rest, cmds, req) ==
            Run(Done(Contributions(gs), None), Log(gs, cmds, req), rest)
  {
    if gs != [] {
      ScriptCons(gs, rest);
      FetchSegment(gs[0], cmds[0], req, Script(gs[1..]) + rest);
      PhotoIsConcatenation(gs[1..], cmds[1..], req, rest);
    }
  }

  /** A served reply without its trailer aborts the photo read, and nothing
      after that segment is sent. */
  lemma {:induction false} PhotoPanics(gs: seq<Segment>, cmds: seq<Bytes>, req: Bytes,
                                       rest: seq<Reply>, k: nat)
    requires |gs| == |cmds| && AllNonEmpty(cmds)
    requires k < |gs| && !Trailed(gs[k])
    requires forall j :: 0 <= j < k ==> Trailed(gs[j])
    ensures FetchPhoto(Script(gs) + rest, cmds, req).result == Panic
    ensures FetchPhoto(Script(gs) + rest, cmds, req).sent == Log(gs[..k + 1], cmds[..k + 1], req)
  {
    ScriptCons(gs, rest);
    if k == 0 {
      PanicsFirst(gs, cmds, req, rest);
    } else {
      FetchSegment(gs[0], cmds[0], req, Script(gs[1..]) + rest);
      PhotoPanics(gs[1..], cmds[1..], req, rest, k - 1);
      LogOfPrefix(gs, cmds, req, k);
    }
  }

  /** A first segment without its trailer aborts the photo read after its
      two commands. */
  lemma PanicsFirst(gs: seq<Segment>, cmds: seq<Bytes>, req: Bytes, rest: seq<Reply>)
    requires |gs| == |cmds| && AllNonEmpty(cmds)
    requires gs != [] && !Trailed(gs[0])
    ensures FetchPhoto(Script(gs) + rest, cmds, req).result == Panic
    ensures FetchPhoto(Script(gs) + rest, cmds, req).sent == Log(gs[..1], cmds[..1], req)
  {
    var s := Script(gs) + rest;
    ScriptCons(gs, rest);
    assert s[0] == Answer(gs[0].ack) && s[1] == Answer(gs[0].reply);
    assert gs[..1][1..] == [];
  }

  /** The commands of the first k + 1 segments: the first segment's, then
      the next k's. */
  lemma LogOfPrefix(gs: seq<Segment>, cmds: seq<Bytes>, req: Bytes, k: nat)
    requires |gs| == |cmds| && AllNonEmpty(cmds) && k < |gs|
    ensures Log(gs[..k + 1], cmds[..k + 1], req) ==
            Commands(gs[0], cmds[0], req) + Log(gs[1..][..k], cmds[1..][..k], req)
  {
    assert gs[..k + 1][1..] == gs[1..][..k] && cmds[..k + 1][1..] == cmds[1..][..k];
  }

  /** Contributions of a concatenation are the concatenated contributions. */
  lemma {:induction false} ContributionsAppend(a: seq<Segment>, b: seq<Segment>)
    requires AllTrailed(a) && AllTrailed(b)
    ensures AllTrailed(a + b)
    ensures Contributions(a + b) == Contributions(a) + Contributions(b)
  {
    if a == [] {
      assert a + b == b;
    } else {
      assert (a + b)[0] == a[0] && (a + b)[1..] == a[1..] + b;
      ContributionsAppend(a[1..], b);
      assert Contribution(a[0]) + (Contributions(a[1..]) + Contributions(b)) ==
             (Contribution(a[0]) + Contributions(a[1..])) + Contributions(b);
    }
  }

  /** A segment whose locate exchange fails adds nothing: the photo is the
      others' contributions, so its length is the sum of theirs. */
  lemma DroppedSegment(gs: seq<Segment>, k: nat, discarded: Bytes, code: nat)
    requires k < |gs|
    requires AllTrailed(gs)
    ensures AllTrailed(gs[k := LocateFault(discarded, code)])
    ensures Contributions(gs[k := LocateFault(discarded, code)]) ==
            Contributions(gs[..k]) + Contributions(gs[k + 1..])
    ensures |Contributions(gs[k := LocateFault(discarded, code)])| ==
            |Contributions(gs[..k])| + |Contributions(gs[k + 1..])|
  {
    var dropped := LocateFault(discarded, code);
    UpdateSplits(gs, k, dropped);
    var tail := [dropped] + gs[k + 1..];
    TrailedSlices(gs, k);
    ContributionsAppend([dropped], gs[k + 1..]);
    assert Contributions([dropped]) == [];
    assert Contributions(tail) == Contributions(gs[k + 1..]);
    ContributionsAppend(gs[..k], tail);
  }

  /** Replacing element k splits a sequence around it. */
  lemma UpdateSplits<T>(s: seq<T>, k: nat, x: T)
    requires k < |s|
    ensures s[k := x] == s[..k] + ([x] + s[k + 1..])
  {
  }

  /** Both sides of element k hold their trailers. */
  lemma TrailedSlices(gs: seq<Segment>, k: nat)
    requires k < |gs| && AllTrailed(gs)
    ensures AllTrailed(gs[..k]) && AllTrailed(gs[k + 1..])
  {
  }

  /** The twenty photo segments of the catalog, all served: the photo is the
      segment payloads joined in ascending segment order. */
  lemma PhotoOfServedCard(acks: seq<Bytes>, payloads: seq<Bytes>, sws: seq<Bytes>,
                          req: Bytes, rest: seq<Reply>)
    requires |acks| == |payloads| == |sws| == |Catalog.Photo|
    requires forall k :: 0 <= k < |sws| ==> |sws[k]| == 2
    ensures var gs := seq(|acks|, k requires 0 <= k < |acks| => Served(acks[k], payloads[k] + sws[k]));
            FetchPhoto(Script(gs) + rest, Catalog.Photo, req).result ==
            Done(Flatten(payloads), None)
  {
    var gs := seq(|acks|, k requires 0 <= k < |acks| => Served(acks[k], payloads[k] + sws[k]));
    forall k | 0 <= k < |Catalog.Photo| ensures |Catalog.Photo[k]| > 0 {
      Catalog.PhotoSegment(k);
    }
    PhotoIsConcatenation(gs, Catalog.Photo, req, rest);
    ServedContributions(gs, payloads, sws);
  }

  /** The concatenation of a sequence of byte strings. */
  function Flatten(bs: seq<Bytes>): (r: Bytes)
  {
    if bs == [] then [] else bs[0] + Flatten(bs[1..])
  }

  lemma {:induction false} ServedContributions(gs: seq<Segment>, payloads: seq<Bytes>, sws: seq<Bytes>)
    requires |gs| == |payloads| == |sws|
    requires forall k :: 0 <= k < |gs| ==> |sws[k]| == 2 && gs[k].Served? &&
                                           gs[k].reply == payloads[k] + sws[k]
    ensures AllTrailed(gs)
    ensures Contributions(gs) == Flatten(payloads)
  {
    if gs != [] {
      var r := gs[0].reply;
      assert r[..|r| - 2] == payloads[0];
      ServedContributions(gs[1..], payloads[1..], sws[1..]);
    }
  }
}
