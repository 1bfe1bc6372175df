/** The session as main runs it: pick the GET RESPONSE prefix from the
    answer-to-reset, select the applet, read the nine text fields in catalog
    order into the record text, then read the photo. */
module Session {
  import opened Apdu
  import opened Catalog
  import opened Transport
  import opened Reader
  import opened Text
  import opened Assembly

  /** What the session hands on to be written out: the record text, the
      photo bytes and the path the photo is written to. */
  datatype Output = Output(record: string, photo: Bytes, photoPath: string)

  // ---------------------------------------------------------------------
  // The record text

  /** One line of the record: the field name, a colon, a space, the value. */
  function Line(name: string, value: string): string
  {
    name + ": " + value + "\n"
  }

  /** A line is the name, then ": ", then the value, then a newline. */
  lemma LineLayout(name: string, value: string)
    ensures var r := Line(name, value);
            |r| == |name| + |value| + 3 &&
            r[..|name|] == name && r[|name|..|name| + 2] == ": " &&
            r[|name| + 2..|r| - 1] == value && r[|r| - 1] == '\n'
  {
  }

  /** The record text: one line per field, in the given order. */
  function RecordText(names: seq<string>, values: seq<string>): string
    requires |names| == |values|
  {
    if names == [] then "" else Line(names[0], values[0]) + RecordText(names[1..], values[1..])
  }

  /** Where the photo of the card holder with this citizen ID is written. */
  function PhotoPath(cid: string): (r: string)
    ensures |r| == |cid| + 12
    ensures r[..8] == "./image/" && r[8..|r| - 4] == cid && r[|r| - 4..] == ".jpg"
  {
    "./image/" + cid + ".jpg"
  }

  /** The position of the first newline, or the length if there is none. */
  function NewlineAt(s: string): (k: nat)
    ensures k <= |s|
    ensures forall j :: 0 <= j < k ==> s[j] != '\n'
    ensures k < |s| ==> s[k] == '\n'
  {
    if s == [] || s[0] == '\n' then 0 else 1 + NewlineAt(s[1..])
  }

  /** Reads a record text back into its values, expecting the given names
      in order, one per line. */
  function ParseRecord(text: string, names: seq<string>): (r: Option<seq<string>>)
    ensures r.Some? ==> |r.value| == |names|
    decreases |names|
  {
    if names == [] then (if text == [] then Some([]) else None)
    else
      var head := names[0] + ": ";
      if |text| < |head| || text[..|head|] != head then None
      else
        var body := text[|head|..];
        var k := NewlineAt(body);
        if k == |body| then None
        else
          match ParseRecord(body[k + 1..], names[1..])
          case None => None
          case Some(vs) => Some([body[..k]] + vs)
  }

  /** The record text determines its values, as long as no value holds a
      newline of its own. */
  lemma {:induction false} RecordRoundTrip(names: seq<string>, values: seq<string>)
    requires |names| == |values|
    requires forall i :: 0 <= i < |values| ==> '\n' !in values[i]
    ensures ParseRecord(RecordText(names, values), names) == Some(values)
  {
    if names != [] {
      var head := names[0] + ": ";
      var v := values[0];
      var rest := RecordText(names[1..], values[1..]);
      var text := RecordText(names, values);
      assert text == head + (v + "\n" + rest);
      assert text[..|head|] == head;
      var body := text[|head|..];
      assert body == v + "\n" + rest;
      assert body[|v|] == '\n';
      assert forall j :: 0 <= j < |v| ==> body[j] == v[j];
      assert NewlineAt(body) == |v|;
      assert body[..|v|] == v && body[|v| + 1..] == rest;
      RecordRoundTrip(names[1..], values[1..]);
      assert [v] + values[1..] == values;
    }
  }

  /** Adding a field at the end adds its line at the end. */
  lemma {:induction false} RecordTextSnoc(names: seq<string>, values: seq<string>, n: string, v: string)
    requires |names| == |values|
    ensures RecordText(names + [n], values + [v]) == RecordText(names, values) + Line(n, v)
  {
    if names == [] {
      assert names + [n] == [n] && values + [v] == [v];
      assert RecordText([n], [v]) == Line(n, v) + RecordText([], []);
    } else {
      assert (names + [n])[1..] == names[1..] + [n];
      assert (values + [v])[1..] == values[1..] + [v];
      RecordTextSnoc(names[1..], values[1..], n, v);
    }
  }

  /** main's record text from the nine values in the order main reads them. */
  lemma RecordOfValues(cid: string, thFullname: string, enFullname: string, dateOfBirth: string,
                       gender: string, issuer: string, issueDate: string, expireDate: string,
                       address: string)
    ensures var vs := [cid] + [thFullname] + [enFullname] + [dateOfBirth] + [gender] +
                      [issuer] + [issueDate] + [expireDate] + [address];
            |vs| == |Fields| &&
            RecordText(Labels(Fields), vs) ==
            Line("cid", cid) + Line("thFullName", thFullname) + Line("enFullName", enFullname) +
            Line("dateOfBirth", dateOfBirth) + Line("gender", gender) + Line("issuer", issuer) +
            Line("issueDate", issueDate) + Line("expireDate", expireDate) + Line("address", address)
  {
    var vs := [cid] + [thFullname] + [enFullname] + [dateOfBirth] + [gender] +
              [issuer] + [issueDate] + [expireDate] + [address];
    assert vs == [cid, thFullname, enFullname, dateOfBirth, gender, issuer, issueDate, expireDate, address];
    FieldNames();
    RecordOfNine(Labels(Fields), vs);
  }

  /** A nine-line record, its lines joined in order. */
  lemma RecordOfNine(ns: seq<string>, vs: seq<string>)
    requires |ns| == |vs| == 9
    ensures RecordText(ns, vs) ==
            Line(ns[0], vs[0]) + Line(ns[1], vs[1]) + Line(ns[2], vs[2]) +
            Line(ns[3], vs[3]) + Line(ns[4], vs[4]) + Line(ns[5], vs[5]) +
            Line(ns[6], vs[6]) + Line(ns[7], vs[7]) + Line(ns[8], vs[8])
  {
    RecordOfFive(ns, vs);
    SnocAt(ns, vs, 5);
    SnocAt(ns, vs, 6);
    SnocAt(ns, vs, 7);
    SnocAt(ns, vs, 8);
    assert ns[..9] == ns && vs[..9] == vs;
  }

  /** The first five lines of a nine-line record. */
  lemma RecordOfFive(ns: seq<string>, vs: seq<string>)
    requires |ns| == |vs| == 9
    ensures RecordText(ns[..5], vs[..5]) ==
            Line(ns[0], vs[0]) + Line(ns[1], vs[1]) + Line(ns[2], vs[2]) +
            Line(ns[3], vs[3]) + Line(ns[4], vs[4])
  {
    assert ns[..0] == [] && vs[..0] == [];
    SnocAt(ns, vs, 0);
    SnocAt(ns, vs, 1);
    SnocAt(ns, vs, 2);
    SnocAt(ns, vs, 3);
    SnocAt(ns, vs, 4);
  }

  /** One more line of a record prefix. */
  lemma SnocAt(ns: seq<string>, vs: seq<string>, k: nat)
    requires |ns| == |vs| && k < |ns|
    ensures RecordText(ns[..k + 1], vs[..k + 1]) == RecordText(ns[..k], vs[..k]) + Line(ns[k], vs[k])
  {
    assert ns[..k + 1] == ns[..k] + [ns[k]] && vs[..k + 1] == vs[..k] + [vs[k]];
    RecordTextSnoc(ns[..k], vs[..k], ns[k], vs[k]);
  }

  // ---------------------------------------------------------------------
  // The nine text reads

  predicate AllCommandsNonEmpty(fields: seq<Field>)
  {
    forall i :: 0 <= i < |fields| ==> |fields[i].cmd| > 0
  }

  /** Nothing read and nothing sent yet. */
  function Start(script: seq<Reply>): Run<seq<string>>
  {
    Run(Done([], None), [], script)
  }

  /** One text read of main after the reads before it. A panic ends the
      session; otherwise the value read is added, whatever error came with
      it, since main discards getString's error. */
  function ReadText(acc: Run<seq<string>>, cmd: Bytes, prefix: Bytes,
                    decode: Bytes -> Option<string>): (r: Run<seq<string>>)
    requires |cmd| > 0
    ensures acc.result.Panic? ==> r == acc
    ensures r.result.Done? ==> acc.result.Done? && r.result.err.None? &&
                               |r.result.value| == |acc.result.value| + 1 &&
                               r.result.value[..|acc.result.value|] == acc.result.value
    ensures acc.result.Done? ==>
              var t := FetchText(acc.rest, cmd, prefix, decode);
              r.sent == acc.sent + t.sent && r.rest == t.rest &&
              (t.result.Panic? ==> r.result.Panic?) &&
              (t.result.Done? ==> r.result == Done(acc.result.value + [t.result.value], None))
  {
    if acc.result.Panic? then acc
    else
      var t := FetchText(acc.rest, cmd, prefix, decode);
      match t.result
      case Panic => Run(Panic, acc.sent + t.sent, t.rest)
      case Done(v, _) => Run(Done(acc.result.value + [v], None), acc.sent + t.sent, t.rest)
  }

  /** The text reads of a run of fields, one after the other in table order. */
  function ReadTexts(acc: Run<seq<string>>, fields: seq<Field>, prefix: Bytes,
                     decode: Bytes -> Option<string>): (r: Run<seq<string>>)
    requires AllCommandsNonEmpty(fields)
    ensures r.result.Done? ==> acc.result.Done? &&
                               |r.result.value| == |acc.result.value| + |fields|
    ensures r.result.Done? ==> r.result.value[..|acc.result.value|] == acc.result.value
    decreases |fields|
  {
    if fields == [] then acc
    else ReadTexts(ReadText(acc, fields[0].cmd, prefix, decode), fields[1..], prefix, decode)
  }

  /** The nine text reads of main, written out in the order main makes them. */
  function RecordReads(script: seq<Reply>, prefix: Bytes, decode: Bytes -> Option<string>): (r: Run<seq<string>>)
    ensures r.result.Done? ==> |r.result.value| == 9
  {
    var cid := ReadText(Start(script), CmdCid, prefix, decode);
    var thFullname := ReadText(cid, CmdThFullName, prefix, decode);
    var enFullname := ReadText(thFullname, CmdEnFullName, prefix, decode);
    var dateOfBirth := ReadText(enFullname, CmdBirth, prefix, decode);
    var gender := ReadText(dateOfBirth, CmdGender, prefix, decode);
    var issuer := ReadText(gender, CmdIssuer, prefix, decode);
    var issueDate := ReadText(issuer, CmdIssueDate, prefix, decode);
    var expireDate := ReadText(issueDate, CmdExpireDate, prefix, decode);
    ReadText(expireDate, CmdAddress, prefix, decode)
  }

  /** The reads of the whole field table, from nothing read. */
  function TableReads(script: seq<Reply>, prefix: Bytes, decode: Bytes -> Option<string>): (r: Run<seq<string>>)
    ensures r.result.Done? ==> |r.result.value| == |Fields|
  {
    FieldCommands();
    ReadTexts(Start(script), Fields, prefix, decode)
  }

  /** Reading from position i of a table is reading field i, then the rest. */
  lemma ReadTextsUnroll(acc: Run<seq<string>>, fields: seq<Field>, i: nat,
                        prefix: Bytes, decode: Bytes -> Option<string>)
    requires AllCommandsNonEmpty(fields) && i < |fields|
    ensures ReadTexts(acc, fields[i..], prefix, decode) ==
            ReadTexts(ReadText(acc, fields[i].cmd, prefix, decode), fields[i + 1..], prefix, decode)
  {
    assert fields[i..][0] == fields[i] && fields[i..][1..] == fields[i + 1..];
  }

  /** main's nine reads are the reads of the field table in table order. */
  lemma RecordReadsInTableOrder(script: seq<Reply>, prefix: Bytes, decode: Bytes -> Option<string>)
    ensures RecordReads(script, prefix, decode) == TableReads(script, prefix, decode)
  {
    FieldCommands();
    var a0 := Start(script);
    var a1 := ReadText(a0, CmdCid, prefix, decode);
    var a2 := ReadText(a1, CmdThFullName, prefix, decode);
    var a3 := ReadText(a2, CmdEnFullName, prefix, decode);
    var a4 := ReadText(a3, CmdBirth, prefix, decode);
    var a5 := ReadText(a4, CmdGender, prefix, decode);
    var a6 := ReadText(a5, CmdIssuer, prefix, decode);
    var a7 := ReadText(a6, CmdIssueDate, prefix, decode);
    var a8 := ReadText(a7, CmdExpireDate, prefix, decode);
    var a9 := ReadText(a8, CmdAddress, prefix, decode);
    assert Fields[0..] == Fields && Fields[9..] == [];
    ReadTextsUnroll(a0, Fields, 0, prefix, decode);
    ReadTextsUnroll(a1, Fields, 1, prefix, decode);
    ReadTextsUnroll(a2, Fields, 2, prefix, decode);
    ReadTextsUnroll(a3, Fields, 3, prefix, decode);
    ReadTextsUnroll(a4, Fields, 4, prefix, decode);
    ReadTextsUnroll(a5, Fields, 5, prefix, decode);
    ReadTextsUnroll(a6, Fields, 6, prefix, decode);
    ReadTextsUnroll(a7, Fields, 7, prefix, decode);
    ReadTextsUnroll(a8, Fields, 8, prefix, decode);
  }

  /** A read whose locate command fails gives the empty text, sends nothing
      more, and the reads go on with the next reply. */
  lemma ReadTextLocateFault(acc: Run<seq<string>>, cmd: Bytes, prefix: Bytes,
                            decode: Bytes -> Option<string>)
    requires |cmd| > 0 && acc.result.Done?
    requires Step(acc.rest).0.Fault?
    ensures ReadText(acc, cmd, prefix, decode) ==
            Run(Done(acc.result.value + [""], None), acc.sent + [cmd], Step(acc.rest).1)
  {
    FetchFieldLocateFault(acc.rest, cmd, prefix);
  }

  /** Every value the reads give has no padding left. */
  lemma {:induction false} ReadTextsUnpadded(acc: Run<seq<string>>, fields: seq<Field>,
                                             prefix: Bytes, decode: Bytes -> Option<string>)
    requires AllCommandsNonEmpty(fields)
    requires acc.result.Done? ==> forall k :: 0 <= k < |acc.result.value| ==> Unpadded(acc.result.value[k])
    ensures var r := ReadTexts(acc, fields, prefix, decode);
            r.result.Done? ==> forall k :: 0 <= k < |r.result.value| ==> Unpadded(r.result.value[k])
    decreases |fields|
  {
    if fields != [] {
      var next := ReadText(acc, fields[0].cmd, prefix, decode);
      if next.result.Done? {
        var t := FetchText(acc.rest, fields[0].cmd, prefix, decode);
        assert next.result.value == acc.result.value + [t.result.value];
      }
      ReadTextsUnpadded(next, fields[1..], prefix, decode);
    }
  }

  /** The commands of a run of fields, in order. */
  function CommandsOf(fields: seq<Field>): (r: seq<Bytes>)
    ensures |r| == |fields| && forall k :: 0 <= k < |fields| ==> r[k] == fields[k].cmd
  {
    if fields == [] then [] else [fields[0].cmd] + CommandsOf(fields[1..])
  }

  /** The text a field read gives when the card answers it as g. */
  function TextOf(g: Segment, decode: Bytes -> Option<string>): string
    requires Trailed(g)
  {
    match g
    case Served(_, reply) =>
      (match decode(reply[..|reply| - 2])
       case Some(t) => Trim(t)
       case None => "")
    case LocateFault(_, _) => ""
    case RetrieveFault(_, _, _) => ""
  }

  /** The texts of a run of field reads. */
  function TextsOf(gs: seq<Segment>, decode: Bytes -> Option<string>): (r: seq<string>)
    requires AllTrailed(gs)
    ensures |r| == |gs|
  {
    if gs == [] then [] else [TextOf(gs[0], decode)] + TextsOf(gs[1..], decode)
  }

  /** Reads of a card that answers every field read, one way or another,
      and holds every trailer: nothing panics, each field gives its text,
      and the commands sent are those of the field reads in order. */
  lemma {:induction false} TextsOfCard(vs: seq<string>, sent: seq<Bytes>, gs: seq<Segment>,
                                       fields: seq<Field>, prefix: Bytes,
                                       decode: Bytes -> Option<string>, rest: seq<Reply>)
    requires |gs| == |fields| && AllCommandsNonEmpty(fields) && AllTrailed(gs)
    ensures ReadTexts(Run(Done(vs, None), sent, Script(gs) + rest), fields, prefix, decode) ==
            Run(Done(vs + TextsOf(gs, decode), None), sent + Log(gs, CommandsOf(fields), prefix), rest)
    decreases |gs|
  {
    var acc := Run(Done(vs, None), sent, Script(gs) + rest);
    if gs == [] {
      assert vs + [] == vs && sent + [] == sent && Script(gs) + rest == rest;
    } else {
      var g, cmd := gs[0], fields[0].cmd;
      var more := Script(gs[1..]) + rest;
      assert Script(gs) + rest == Replies(g) + more;
      FetchSegment(g, cmd, prefix, more);
      var next := Run(Done(vs + [TextOf(g, decode)], None), sent + Commands(g, cmd, prefix), more);
      assert ReadText(acc, cmd, prefix, decode) == next;
      TextsOfCard(vs + [TextOf(g, decode)], sent + Commands(g, cmd, prefix), gs[1..], fields[1..],
                  prefix, decode, rest);
      assert CommandsOf(fields)[1..] == CommandsOf(fields[1..]);
      AppendAssoc(vs, [TextOf(g, decode)], TextsOf(gs[1..], decode));
      AppendAssoc(sent, Commands(g, cmd, prefix), Log(gs[1..], CommandsOf(fields[1..]), prefix));
    }
  }

  // ---------------------------------------------------------------------
  // The session

  /** The whole session: None from SelectPrefix is the index panic on a
      short answer-to-reset, before anything is sent. The reply to the
      applet SELECT is not looked at. */
  function SessionSpec(atr: Bytes, script: seq<Reply>, decode: Bytes -> Option<string>): (r: Run<Output>)
    ensures SelectPrefix(atr).None? ==> r == Run(Panic, [], script)
    ensures SelectPrefix(atr).Some? ==> |r.sent| >= 1 && r.sent[0] == SelectThaiCard
  {
    match SelectPrefix(atr)
    case None => Run(Panic, [], script)
    case Some(p) =>
      var f := Finish(p, TableReads(Step(script).1, p, decode));
      Run(f.result, [SelectThaiCard] + f.sent, f.rest)
  }

  /** The session after the text reads: the photo read, then the output. */
  function Finish(p: Bytes, t: Run<seq<string>>): (r: Run<Output>)
    requires t.result.Done? ==> |t.result.value| == |Fields|
    ensures t.result.Panic? ==> r == Run(Panic, t.sent, t.rest)
    ensures r.result.Done? ==>
              t.result.Done? && r.result.err.None? &&
              r.result.value.record == RecordText(Labels(Fields), t.result.value) &&
              r.result.value.photoPath == PhotoPath(t.result.value[0])
    ensures |r.sent| >= |t.sent| && r.sent[..|t.sent|] == t.sent
  {
    if t.result.Panic? then Run(Panic, t.sent, t.rest)
    else
      PhotoCommands();
      var ph := FetchPhoto(t.rest, Photo, p);
      var sent := t.sent + ph.sent;
      var vs := t.result.value;
      if ph.result.Panic? then Run(Panic, sent, ph.rest)
      else Run(Done(Output(RecordText(Labels(Fields), vs), ph.result.value, PhotoPath(vs[0])), None),
               sent, ph.rest)
  }

  /** Every photo command can be sent by getData. */
  lemma PhotoReadable()
    ensures AllNonEmpty(Photo)
  {
    PhotoCommands();
  }

  /** The session after a complete record: the photo read decides the rest. */
  lemma FinishRead(p: Bytes, t: Run<seq<string>>)
    requires t.result.Done? && |t.result.value| == |Fields| && AllNonEmpty(Photo)
    ensures var ph := FetchPhoto(t.rest, Photo, p); var r := Finish(p, t);
            r.sent == t.sent + ph.sent && r.rest == ph.rest &&
            (ph.result.Panic? ==> r.result == Panic) &&
            (ph.result.Done? ==> r.result == Done(Output(RecordText(Labels(Fields), t.result.value),
                                                         ph.result.value, PhotoPath(t.result.value[0])), None))
  {
  }

  /** A short answer-to-reset ends the session before anything is sent. */
  lemma SessionShortAtr(atr: Bytes, script: seq<Reply>, decode: Bytes -> Option<string>)
    requires |atr| == 0 || atr == [0x3B]
    ensures SessionSpec(atr, script, decode) == Run(Panic, [], script)
  {
    if |atr| > 0 {
      assert atr[0] == 0x3B && |atr| == 1;
    }
  }

  /** A whole session with a card that answers every read and holds every
      trailer, whatever it answers to the applet SELECT: the record holds the
      nine texts in table order, the photo is the segments' contributions
      joined in order, the photo is named after the first text, and the
      commands sent are the SELECT, the field reads and the photo reads, all
      with the prefix the answer-to-reset chose. */
  lemma SessionOfCard(atr: Bytes, sel: Reply, gs: seq<Segment>, ps: seq<Segment>, rest: seq<Reply>,
                      decode: Bytes -> Option<string>)
    requires SelectPrefix(atr).Some?
    requires |gs| == |Fields| && AllTrailed(gs)
    requires |ps| == |Photo| && AllTrailed(ps)
    requires AllCommandsNonEmpty(Fields) && AllNonEmpty(Photo)
    ensures var p := SelectPrefix(atr).value;
            var vs := TextsOf(gs, decode);
            SessionSpec(atr, [sel] + Script(gs) + Script(ps) + rest, decode) ==
            Run(Done(Output(RecordText(Labels(Fields), vs), Contributions(ps), PhotoPath(vs[0])), None),
                [SelectThaiCard] + Log(gs, CommandsOf(Fields), p) + Log(ps, Photo, p), rest)
  {
    var p := SelectPrefix(atr).value;
    var more := Script(ps) + rest;
    AppendAssoc([sel], Script(gs), Script(ps));
    AppendAssoc([sel] + Script(gs), Script(ps), rest);
    AppendAssoc([sel], Script(gs), more);
    SessionSelected(atr, sel, Script(gs) + more, decode);
    RecordOfCard(gs, p, decode, more);
    var vs := TextsOf(gs, decode);
    var log := Log(gs, CommandsOf(Fields), p);
    FinishOfCard(p, vs, log, ps, rest);
    AppendAssoc([SelectThaiCard], log, Log(ps, Photo, p));
  }

  /** The session once the applet is selected: whatever the card answers to
      the SELECT, the text reads and the photo read go on with the prefix the
      answer-to-reset chose. */
  lemma SessionSelected(atr: Bytes, sel: Reply, more: seq<Reply>, decode: Bytes -> Option<string>)
    requires SelectPrefix(atr).Some?
    ensures var f := Finish(SelectPrefix(atr).value, TableReads(more, SelectPrefix(atr).value, decode));
            SessionSpec(atr, [sel] + more, decode) == Run(f.result, [SelectThaiCard] + f.sent, f.rest)
  {
    assert Step([sel] + more).1 == more;
  }

  /** main's nine reads from a card that answers each of them. */
  lemma RecordOfCard(gs: seq<Segment>, p: Bytes, decode: Bytes -> Option<string>, more: seq<Reply>)
    requires |gs| == |Fields| && AllTrailed(gs) && AllCommandsNonEmpty(Fields)
    ensures TableReads(Script(gs) + more, p, decode) ==
            Run(Done(TextsOf(gs, decode), None), Log(gs, CommandsOf(Fields), p), more)
  {
    TextsOfCard([], [], gs, Fields, p, decode, more);
    assert [] + TextsOf(gs, decode) == TextsOf(gs, decode);
    assert [] + Log(gs, CommandsOf(Fields), p) == Log(gs, CommandsOf(Fields), p);
  }

  /** The photo part of a session with a card that answers every segment. */
  lemma FinishOfCard(p: Bytes, vs: seq<string>, sent: seq<Bytes>, ps: seq<Segment>, rest: seq<Reply>)
    requires |vs| == |Fields| && |ps| == |Photo| && AllTrailed(ps) && AllNonEmpty(Photo)
    ensures Finish(p, Run(Done(vs, None), sent, Script(ps) + rest)) ==
            Run(Done(Output(RecordText(Labels(Fields), vs), Contributions(ps), PhotoPath(vs[0])), None),
                sent + Log(ps, Photo, p), rest)
  {
    PhotoIsConcatenation(ps, Photo, p, rest);
  }

  /** The program's package-level state: the GET RESPONSE prefix that main
      sets once and every text read uses. */
  class Program {
    var cmdReq: Bytes

    constructor ()
      ensures cmdReq == DefaultPrefix
    {
      cmdReq := DefaultPrefix;
    }

    /** getString: reads with the package-level prefix; its own req argument
        is not used. */
    method GetString(card: Card, cmd: Bytes, req: Bytes, decode: Bytes -> Option<string>)
      returns (c: Completion<string>)
      requires |cmd| > 0
      modifies card
      ensures var r := FetchText(old(card.script), cmd, cmdReq, decode);
              c == r.result && card.sent == old(card.sent) + r.sent && card.script == r.rest
    {
      var raw := GetData(card, cmd, cmdReq);
      if raw.Panic? {
        return Panic;
      }
      if raw.err.Some? {
        return Done("", raw.err);
      }
      var th := decode(raw.value);
      if th.None? {
        return Done("", Some(DecodeError));
      }
      TrimSplits(th.value);
      return Done(Trim(th.value), None);
    }

    /** The record-building part of main: the nine text reads in catalog
        order, each appended to the record text as one line. Returns the
        values read and the record text. */
    method ReadRecord(card: Card, decode: Bytes -> Option<string>)
      returns (c: Completion<seq<string>>, dataTofile: string)
      modifies card
      ensures var t := RecordReads(old(card.script), cmdReq, decode);
              c == t.result && card.sent == old(card.sent) + t.sent && card.script == t.rest
      ensures c.Done? ==> |c.value| == |Fields| && dataTofile == RecordText(Labels(Fields), c.value)
    {
      ghost var sent0 := card.sent;
      ghost var acc := Start(card.script);
      assert card.sent == sent0 + acc.sent;
      dataTofile := "";

      ghost var tcid := FetchText(card.script, CmdCid, cmdReq, decode);
      var cid := GetString(card, CmdCid, cmdReq, decode);
      AppendAssoc(sent0, acc.sent, tcid.sent);
      acc := ReadText(acc, CmdCid, cmdReq, decode);
      if cid.Panic? {
        return Panic, dataTofile;
      }
      var values := [cid.value];
      dataTofile := Line("cid", cid.value);

      ghost var tthFullname := FetchText(card.script, CmdThFullName, cmdReq, decode);
      var thFullname := GetString(card, CmdThFullName, cmdReq, decode);
      AppendAssoc(sent0, acc.sent, tthFullname.sent);
      acc := ReadText(acc, CmdThFullName, cmdReq, decode);
      if thFullname.Panic? {
        return Panic, dataTofile;
      }
      values := values + [thFullname.value];
      dataTofile := dataTofile + Line("thFullName", thFullname.value);

      ghost var tenFullname := FetchText(card.script, CmdEnFullName, cmdReq, decode);
      var enFullname := GetString(card, CmdEnFullName, cmdReq, decode);
      AppendAssoc(sent0, acc.sent, tenFullname.sent);
      acc := ReadText(acc, CmdEnFullName, cmdReq, decode);
      if enFullname.Panic? {
        return Panic, dataTofile;
      }
      values := values + [enFullname.value];
      dataTofile := dataTofile + Line("enFullName", enFullname.value);

      ghost var tdateOfBirth := FetchText(card.script, CmdBirth, cmdReq, decode);
      var dateOfBirth := GetString(card, CmdBirth, cmdReq, decode);
      AppendAssoc(sent0, acc.sent, tdateOfBirth.sent);
      acc := ReadText(acc, CmdBirth, cmdReq, decode);
      if dateOfBirth.Panic? {
        return Panic, dataTofile;
      }
      values := values + [dateOfBirth.value];
      dataTofile := dataTofile + Line("dateOfBirth", dateOfBirth.value);

      ghost var tgender := FetchText(card.script, CmdGender, cmdReq, decode);
      var gender := GetString(card, CmdGender, cmdReq, decode);
      AppendAssoc(sent0, acc.sent, tgender.sent);
      acc := ReadText(acc, CmdGender, cmdReq, decode);
      if gender.Panic? {
        return Panic, dataTofile;
      }
      values := values + [gender.value];
      dataTofile := dataTofile + Line("gender", gender.value);

      ghost var tissuer := FetchText(card.script, CmdIssuer, cmdReq, decode);
      var issuer := GetString(card, CmdIssuer, cmdReq, decode);
      AppendAssoc(sent0, acc.sent, tissuer.sent);
      acc := ReadText(acc, CmdIssuer, cmdReq, decode);
      if issuer.Panic? {
        return Panic, dataTofile;
      }
      values := values + [issuer.value];
      dataTofile := dataTofile + Line("issuer", issuer.value);

      ghost var tissueDate := FetchText(card.script, CmdIssueDate, cmdReq, decode);
      var issueDate := GetString(card, CmdIssueDate, cmdReq, decode);
      AppendAssoc(sent0, acc.sent, tissueDate.sent);
      acc := ReadText(acc, CmdIssueDate, cmdReq, decode);
      if issueDate.Panic? {
        return Panic, dataTofile;
      }
      values := values + [issueDate.value];
      dataTofile := dataTofile + Line("issueDate", issueDate.value);

      ghost var texpireDate := FetchText(card.script, CmdExpireDate, cmdReq, decode);
      var expireDate := GetString(card, CmdExpireDate, cmdReq, decode);
      AppendAssoc(sent0, acc.sent, texpireDate.sent);
      acc := ReadText(acc, CmdExpireDate, cmdReq, decode);
      if expireDate.Panic? {
        return Panic, dataTofile;
      }
      values := values + [expireDate.value];
      dataTofile := dataTofile + Line("expireDate", expireDate.value);

      ghost var taddress := FetchText(card.script, CmdAddress, cmdReq, decode);
      var address := GetString(card, CmdAddress, cmdReq, decode);
      AppendAssoc(sent0, acc.sent, taddress.sent);
      acc := ReadText(acc, CmdAddress, cmdReq, decode);
      if address.Panic? {
        return Panic, dataTofile;
      }
      values := values + [address.value];
      dataTofile := dataTofile + Line("address", address.value);

      RecordOfValues(cid.value, thFullname.value, enFullname.value, dateOfBirth.value, gender.value,
                     issuer.value, issueDate.value, expireDate.value, address.value);
      return Done(values, None), dataTofile;
    }

    /** main, from the answer-to-reset on: the variant choice, the applet
        SELECT, then the record and the photo. */
    method ReadCard(card: Card, atr: Bytes, decode: Bytes -> Option<string>) returns (out: Completion<Output>)
      modifies this, card
      ensures var r := SessionSpec(atr, old(card.script), decode);
              out == r.result && card.sent == old(card.sent) + r.sent && card.script == r.rest
      ensures SelectPrefix(atr).Some? ==> cmdReq == SelectPrefix(atr).value
    {
      if |atr| == 0 || (atr[0] == 0x3B && |atr| == 1) {
        // atr[0], or atr[1] after a matching atr[0], is out of range
        assert old(card.sent) + [] == old(card.sent);
        return Panic;
      }
      if atr[0] == 0x3B && atr[1] == 0x67 {
        cmdReq := ExtendedPrefix;
      } else {
        cmdReq := DefaultPrefix;
      }

      var _ := card.Transmit(SelectThaiCard);
      ghost var f := Finish(cmdReq, TableReads(card.script, cmdReq, decode));
      assert SessionSpec(atr, old(card.script), decode) == Run(f.result, [SelectThaiCard] + f.sent, f.rest);
      out := ReadSelected(card, decode);
      AppendAssoc(old(card.sent), [SelectThaiCard], f.sent);
    }

    /** main after the applet SELECT: the nine text reads into the record,
        then the photo read. */
    method ReadSelected(card: Card, decode: Bytes -> Option<string>) returns (out: Completion<Output>)
      modifies card
      ensures var r := Finish(cmdReq, TableReads(old(card.script), cmdReq, decode));
              out == r.result && card.sent == old(card.sent) + r.sent && card.script == r.rest
    {
      RecordReadsInTableOrder(card.script, cmdReq, decode);
      ghost var t := RecordReads(card.script, cmdReq, decode);
      var record, dataTofile := ReadRecord(card, decode);
      if record.Panic? {
        return Panic;
      }
      PhotoReadable();
      ghost var ph := FetchPhoto(card.script, Photo, cmdReq);
      FinishRead(cmdReq, t);
      var photo := GetPhoto(card, Photo, cmdReq);
      AppendAssoc(old(card.sent), t.sent, ph.sent);
      if photo.Panic? {
        return Panic;
      }
      return Done(Output(dataTofile, photo.value, PhotoPath(record.value[0])), None);
    }
  }
}
