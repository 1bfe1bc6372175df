/** Command and response APDUs as byte sequences: the GET RESPONSE command a
    data read is completed with, the status trailer every response carries,
    and the choice of GET RESPONSE prefix from the card's answer-to-reset. */
module Apdu {

  newtype byte = x: int | 0 <= x < 256

  type Bytes = seq<byte>

  datatype Option<+T> = None | Some(value: T)

  /** GET RESPONSE prefix (CLA 00, INS C0, P1 00, P2 00) used by default. */
  const DefaultPrefix: Bytes := [0x00, 0xC0, 0x00, 0x00]

  /** GET RESPONSE prefix used for cards whose answer-to-reset starts 3B 67. */
  const ExtendedPrefix: Bytes := [0x00, 0xC0, 0x00, 0x01]

  /** The two bytes that open the answer-to-reset of the extended variant. */
  const ExtendedAtrHead: Bytes := [0x3B, 0x67]

  /** The retrieve command of a two-phase read: the session's GET RESPONSE
      prefix followed by the expected length (Le), which is the last byte of
      the locate command. */
  function GetResponse(prefix: Bytes, cmd: Bytes): (r: Bytes)
    requires |cmd| > 0
    ensures |r| == |prefix| + 1
    ensures r[..|prefix|] == prefix
    ensures r[|r| - 1] == cmd[|cmd| - 1]
  {
    prefix + [cmd[|cmd| - 1]]
  }

  /** Removes the two status bytes (SW1 SW2) that end every response.
      None stands for a reply too short to hold them, where the slice in the
      program is out of range. */
  function StripTrailer(reply: Bytes): (r: Option<Bytes>)
    ensures r.None? <==> |reply| < 2
    ensures r.Some? ==> |r.value| == |reply| - 2
    ensures r.Some? ==> forall i :: 0 <= i < |r.value| ==> r.value[i] == reply[i]
  {
    if |reply| < 2 then None else Some(reply[..|reply| - 2])
  }

  /** Appending a two-byte trailer and stripping it again gives back the
      payload, whatever the trailer is. */
  lemma StripTrailerOfTrailed(payload: Bytes, sw: Bytes)
    requires |sw| == 2
    ensures StripTrailer(payload + sw) == Some(payload)
  {
    assert (payload + sw)[..|payload|] == payload;
  }

  /** Every successful strip is the inverse of appending some trailer. */
  lemma StripTrailerSplits(reply: Bytes)
    requires |reply| >= 2
    ensures StripTrailer(reply).Some?
    ensures reply == StripTrailer(reply).value + reply[|reply| - 2..]
  {
  }

  /** The GET RESPONSE prefix chosen from the answer-to-reset. The program
      compares atr[0] with 0x3B and then atr[1] with 0x67, stopping at the
      first mismatch; None is an index out of range while doing so. */
  function SelectPrefix(atr: Bytes): (r: Option<Bytes>)
    ensures r.None? <==> |atr| == 0 || (|atr| == 1 && atr[0] == 0x3B)
    ensures r == Some(ExtendedPrefix) <==> |atr| >= 2 && atr[..2] == ExtendedAtrHead
    ensures r == Some(DefaultPrefix) <==>
              (|atr| >= 1 && atr[0] != 0x3B) || (|atr| >= 2 && atr[0] == 0x3B && atr[1] != 0x67)
  {
    if |atr| == 0 then None
    else if atr[0] != 0x3B then Some(DefaultPrefix)
    else if |atr| == 1 then None
    else if atr[1] == 0x67 then Some(ExtendedPrefix)
    else Some(DefaultPrefix)
  }

  /** Both prefixes are GET RESPONSE headers: class 00, INS C0, P1 00. */
  predicate IsGetResponsePrefix(prefix: Bytes)
  {
    |prefix| == 4 && prefix[0] == 0x00 && prefix[1] == 0xC0 && prefix[2] == 0x00
  }

  /** Whatever the answer-to-reset, the chosen prefix is a GET RESPONSE
      header, so the retrieve command is always the five bytes
      00 C0 00 P2 Le with Le copied from the locate command. */
  lemma SelectedGetResponseShape(atr: Bytes, cmd: Bytes)
    requires SelectPrefix(atr).Some?
    requires |cmd| > 0
    ensures IsGetResponsePrefix(SelectPrefix(atr).value)
    ensures var g := GetResponse(SelectPrefix(atr).value, cmd);
            |g| == 5 && g[0] == 0x00 && g[1] == 0xC0 && g[2] == 0x00 && g[4] == cmd[|cmd| - 1]
  {
  }
}
