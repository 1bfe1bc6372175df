/** The static command tables of the national ID card applet: the applet
    SELECT, the nine text fields and the twenty photo segments. */
module Catalog {
  import opened Apdu

  /** A field of the personal record: the label it is written under and the
      command that locates it on the card. */
  datatype Field = Field(name: string, cmd: Bytes)

  /** SELECT by DF name (INS A4, P1 04) of the applet A0 00 00 00 54 48 00 01. */
  const SelectThaiCard: Bytes := [0x00, 0xA4, 0x04, 0x00, 0x08, 0xA0, 0x00, 0x00, 0x00, 0x54, 0x48, 0x00, 0x01]

  const CmdCid: Bytes         := [0x80, 0xB0, 0x00, 0x04, 0x02, 0x00, 0x0D]
  const CmdThFullName: Bytes  := [0x80, 0xB0, 0x00, 0x11, 0x02, 0x00, 0x64]
  const CmdEnFullName: Bytes  := [0x80, 0xB0, 0x00, 0x75, 0x02, 0x00, 0x64]
  const CmdBirth: Bytes       := [0x80, 0xB0, 0x00, 0xD9, 0x02, 0x00, 0x08]
  const CmdGender: Bytes      := [0x80, 0xB0, 0x00, 0xE1, 0x02, 0x00, 0x01]
  const CmdIssuer: Bytes      := [0x80, 0xB0, 0x00, 0xF6, 0x02, 0x00, 0x64]
  const CmdIssueDate: Bytes   := [0x80, 0xB0, 0x01, 0x67, 0x02, 0x00, 0x08]
  const CmdExpireDate: Bytes  := [0x80, 0xB0, 0x01, 0x6F, 0x02, 0x00, 0x08]
  const CmdAddress: Bytes     := [0x80, 0xB0, 0x15, 0x79, 0x02, 0x00, 0x64]

  /** The text fields in the order they are read and written out. */
  const Fields: seq<Field> := [
    Field("cid", CmdCid),
    Field("thFullName", CmdThFullName),
    Field("enFullName", CmdEnFullName),
    Field("dateOfBirth", CmdBirth),
    Field("gender", CmdGender),
    Field("issuer", CmdIssuer),
    Field("issueDate", CmdIssueDate),
    Field("expireDate", CmdExpireDate),
    Field("address", CmdAddress)
  ]

  /** The photo segment commands, segment 1 first. */
  const Photo: seq<Bytes> := [
    [0x80, 0xB0, 0x01, 0x7B, 0x02, 0x00, 0xFF],
    [0x80, 0xB0, 0x02, 0x7A, 0x02, 0x00, 0xFF],
    [0x80, 0xB0, 0x03, 0x79, 0x02, 0x00, 0xFF],
    [0x80, 0xB0, 0x04, 0x78, 0x02, 0x00, 0xFF],
    [0x80, 0xB0, 0x05, 0x77, 0x02, 0x00, 0xFF],
    [0x80, 0xB0, 0x06, 0x76, 0x02, 0x00, 0xFF],
    [0x80, 0xB0, 0x07, 0x75, 0x02, 0x00, 0xFF],
    [0x80, 0xB0, 0x08, 0x74, 0x02, 0x00, 0xFF],
    [0x80, 0xB0, 0x09, 0x73, 0x02, 0x00, 0xFF],
    [0x80, 0xB0, 0x0A, 0x72, 0x02, 0x00, 0xFF],
    [0x80, 0xB0, 0x0B, 0x71, 0x02, 0x00, 0xFF],
    [0x80, 0xB0, 0x0C, 0x70, 0x02, 0x00, 0xFF],
    [0x80, 0xB0, 0x0D, 0x6F, 0x02, 0x00, 0xFF],
    [0x80, 0xB0, 0x0E, 0x6E, 0x02, 0x00, 0xFF],
    [0x80, 0xB0, 0x0F, 0x6D, 0x02, 0x00, 0xFF],
    [0x80, 0xB0, 0x10, 0x6C, 0x02, 0x00, 0xFF],
    [0x80, 0xB0, 0x11, 0x6B, 0x02, 0x00, 0xFF],
    [0x80, 0xB0, 0x12, 0x6A, 0x02, 0x00, 0xFF],
    [0x80, 0xB0, 0x13, 0x69, 0x02, 0x00, 0xFF],
    [0x80, 0xB0, 0x14, 0x68, 0x02, 0x00, 0xFF]
  ]

  /** A data command 80 B0 P1 P2 02 00 Le: proprietary class 80, a READ
      BINARY-like INS B0, the offset in P1 P2, a two-byte body 02 00 and the
      expected length Le. */
  predicate IsDataCommand(c: Bytes)
  {
    |c| == 7 && c[0] == 0x80 && c[1] == 0xB0 && c[4] == 0x02 && c[5] == 0x00
  }

  /** The offset P1 << 8 | P2 a data command reads from. */
  function Offset(c: Bytes): nat
    requires IsDataCommand(c)
  {
    c[2] as nat * 256 + c[3] as nat
  }

  /** The expected length Le of a data command. */
  function Le(c: Bytes): nat
    requires IsDataCommand(c)
  {
    c[6] as nat
  }

  /** The labels of a field table, in order. */
  function Labels(fs: seq<Field>): (r: seq<string>)
    ensures |r| == |fs|
    ensures forall i :: 0 <= i < |fs| ==> r[i] == fs[i].name
  {
    if fs == [] then [] else [fs[0].name] + Labels(fs[1..])
  }

  /** The applet SELECT is a SELECT by DF name whose Lc counts the AID. */
  lemma SelectThaiCardShape()
    ensures |SelectThaiCard| == 13
    ensures SelectThaiCard[..4] == [0x00, 0xA4, 0x04, 0x00]
    ensures SelectThaiCard[4] as nat == |SelectThaiCard[5..]|
    ensures SelectThaiCard[5..] == [0xA0, 0x00, 0x00, 0x00, 0x54, 0x48, 0x00, 0x01]
  {
  }

  /** The nine fields with their names in the order main writes them. */
  lemma FieldNames()
    ensures |Fields| == 9
    ensures Labels(Fields) ==
            ["cid", "thFullName", "enFullName", "dateOfBirth", "gender",
             "issuer", "issueDate", "expireDate", "address"]
  {
  }

  /** Every text field command is a data command. */
  lemma FieldCommands()
    ensures |Fields| == 9
    ensures forall i :: 0 <= i < |Fields| ==> IsDataCommand(Fields[i].cmd)
  {
  }

  /** The offsets and expected lengths of the text fields are those of the
      card's personal data file. */
  lemma FieldLayout()
    ensures |Fields| == 9
    ensures forall i :: 0 <= i < |Fields| ==> IsDataCommand(Fields[i].cmd)
    ensures forall i :: 0 <= i < |Fields| ==>
              Le(Fields[i].cmd) == [0x0D, 0x64, 0x64, 0x08, 0x01, 0x64, 0x08, 0x08, 0x64][i]
    ensures forall i :: 0 <= i < |Fields| ==>
              Offset(Fields[i].cmd) ==
              [0x0004, 0x0011, 0x0075, 0x00D9, 0x00E1, 0x00F6, 0x0167, 0x016F, 0x1579][i]
  {
    FieldCommands();
  }

  /** Every photo command is a data command. */
  lemma PhotoCommands()
    ensures |Photo| == 20
    ensures forall k :: 0 <= k < |Photo| ==> IsDataCommand(Photo[k])
  {
    forall k | 0 <= k < |Photo| ensures IsDataCommand(Photo[k]) {
      PhotoSegment(k);
    }
  }

  /** Photo segment k (from 0) is the data command with P1 = k + 1 reading
      the full 255-byte chunk at offset 0x017B + 255 k. */
  lemma PhotoSegment(k: nat)
    requires k < |Photo|
    ensures |Photo| == 20
    ensures IsDataCommand(Photo[k])
    ensures Photo[k][2] as nat == k + 1
    ensures Offset(Photo[k]) == 0x017B + 255 * k
    ensures Le(Photo[k]) == 0xFF
  {
  }

  /** Each segment starts exactly where the previous one ends. */
  lemma PhotoContiguous(k: nat)
    requires 0 < k < |Photo|
    ensures IsDataCommand(Photo[k - 1]) && IsDataCommand(Photo[k])
    ensures Offset(Photo[k - 1]) + Le(Photo[k - 1]) == Offset(Photo[k])
  {
    PhotoSegment(k - 1);
    PhotoSegment(k);
  }

  /** Distinct segments cover disjoint byte ranges, and a later segment lies
      wholly after an earlier one. */
  lemma PhotoDisjoint(j: nat, k: nat)
    requires j < k < |Photo|
    ensures IsDataCommand(Photo[j]) && IsDataCommand(Photo[k])
    ensures Offset(Photo[j]) + Le(Photo[j]) <= Offset(Photo[k])
  {
    PhotoSegment(j);
    PhotoSegment(k);
  }

  /** Together the segments cover the 5100 bytes from 0x017B onwards. */
  lemma PhotoExtent()
    ensures IsDataCommand(Photo[0]) && IsDataCommand(Photo[|Photo| - 1])
    ensures Offset(Photo[0]) == 0x017B
    ensures Offset(Photo[|Photo| - 1]) + Le(Photo[|Photo| - 1]) == 0x017B + 20 * 255
  {
    PhotoSegment(0);
    PhotoSegment(19);
  }
}
