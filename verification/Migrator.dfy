/**
 The flow mod that diverts traffic to the proxy's data-path port. The source fills a raw
 buffer field by field, on the host's own byte order, converting some fields to network
 order and leaving others as they are.
 */
module Migrator {
  import opened Bytes
  import opened Framing
  import opened FlowModCodec

  const COOKIE_SWITCH: u64 := 0x627
  const OFPFC_ADD: u8 := 0
  const OFP_NO_BUFFER: u32 := 0xffff_ffff
  const OFPP_ANY: u32 := 0xffff_ffff
  const OFPG_ANY: u32 := 0xffff_ffff
  const OFPCML_NO_BUFFER: u16 := 0xffff

  datatype Host = LittleEndian | BigEndian

  function Reversed(b: Bytes): (r: Bytes)
    ensures |r| == |b| && forall i :: 0 <= i < |b| ==> r[i] == b[|b| - 1 - i]
  {
    seq(|b|, i requires 0 <= i < |b| => b[|b| - 1 - i])
  }

  lemma ReversedTwice(b: Bytes)
    ensures Reversed(Reversed(b)) == b
  {
  }

  function Swap16(v: u16): u16 {
    U16At(Reversed(Be16(v)), 0)
  }

  function Swap32(v: u32): u32 {
    U32At(Reversed(Be32(v)), 0)
  }

  function Swap64(v: u64): u64 {
    U64At(Reversed(Be64(v)), 0)
  }

  function Htons(h: Host, v: u16): u16 {
    if h.BigEndian? then v else Swap16(v)
  }

  function Htonl(h: Host, v: u32): u32 {
    if h.BigEndian? then v else Swap32(v)
  }

  function Htobe64(h: Host, v: u64): u64 {
    if h.BigEndian? then v else Swap64(v)
  }

  /** The bytes an integer with big-endian form `be` occupies in the host's memory. */
  function Memory(h: Host, be: Bytes): (b: Bytes)
    ensures |b| == |be|
  {
    if h.BigEndian? then be else Reversed(be)
  }

  /** A converted field lies in memory in network order on every host. */
  lemma Htons16(h: Host, v: u16)
    ensures Memory(h, Be16(Htons(h, v))) == Be16(v)
  {
    Be16OfU16At(Reversed(Be16(v)), 0);
    ReversedTwice(Be16(v));
  }

  lemma Htonl32(h: Host, v: u32)
    ensures Memory(h, Be32(Htonl(h, v))) == Be32(v)
  {
    Be32OfU32At(Reversed(Be32(v)), 0);
    ReversedTwice(Be32(v));
  }

  lemma Htobe(h: Host, v: u64)
    ensures Memory(h, Be64(Htobe64(h, v))) == Be64(v)
  {
    var r := Reversed(Be64(v));
    Be64OfU64At(r, 0);
    assert r[0..8] == r;
    ReversedTwice(Be64(v));
  }

  /** A field written without conversion reads the same on both hosts exactly when its
      value is its own byte swap. */
  lemma Unconverted16(v: u16)
    ensures Memory(LittleEndian, Be16(v)) == Memory(BigEndian, Be16(v)) <==> Swap16(v) == v
  {
    Be16OfU16At(Reversed(Be16(v)), 0);
  }

  lemma Unconverted32(v: u32)
    ensures Memory(LittleEndian, Be32(v)) == Memory(BigEndian, Be32(v)) <==> Swap32(v) == v
  {
    Be32OfU32At(Reversed(Be32(v)), 0);
  }

  /** The source writes all-zero and all-one values without conversion. */
  lemma SameByte(h: Host, be: Bytes, x: u8)
    requires forall i :: 0 <= i < |be| ==> be[i] == x
    ensures Memory(h, be) == be
  {
  }

  /** The flow mod the source means to send: everything out of `port`. */
  function SwitchFlowMod(port: u32): FlowMod {
    FlowMod(Fields(0x1234_5678, COOKIE_SWITCH, 0, 0, OFPFC_ADD, 0, 0, 1,
                   OFP_NO_BUFFER, OFPP_ANY, OFPG_ANY, 0),
            [], [ApplyActions([Output(port, OFPCML_NO_BUFFER)])])
  }

  /** Its bytes, structure by structure. */
  function SwitchBytes(port: u32): (b: Message)
    ensures |b| == 80
  {
    FilledBytes(SwitchFlowMod(port).fields, port)
  }

  function FilledBytes(f: Fields, port: u32): (b: Message)
    ensures |b| == 80
  {
    EncodeIds(f, 80) + EncodeRules(f)
    + EncodeMatch([]) + ActionList(OFPIT_APPLY_ACTIONS, EncodeAction(Output(port, OFPCML_NO_BUFFER)))
  }

  /** The nested lengths tile the 80 bytes: 48 fixed, 8 for the padded empty match,
      8 + 16 for the instruction and its action. */
  lemma SwitchIsEncoding(port: u32)
    ensures Encodable(SwitchFlowMod(port))
    ensures Encode(SwitchFlowMod(port)) == SwitchBytes(port)
  {
    var a := Output(port, OFPCML_NO_BUFFER);
    var i := ApplyActions([a]);
    OneAction(a);
    assert EncodeInstruction(i) == ActionList(OFPIT_APPLY_ACTIONS, EncodeAction(a));
    OneInstruction(i);
    EncodeParts(SwitchFlowMod(port), EncodeInstruction(i));
    MatchSize();
    SwitchAssembled(SwitchFlowMod(port).fields, port);
  }

  lemma MatchSize()
    ensures |EncodeMatch([])| == 8
  {
  }

  lemma SwitchAssembled(f: Fields, port: u32)
    ensures var list := ActionList(OFPIT_APPLY_ACTIONS, EncodeAction(Output(port, OFPCML_NO_BUFFER)));
            |list| == 24 && Assemble(f, EncodeMatch([]) + list) == FilledBytes(f, port)
  {
    MatchSize();
  }

  lemma OneAction(a: Action)
    ensures EncodeActions([a]) == EncodeAction(a)
  {
    assert EncodeActions([a]) == EncodeAction(a) + EncodeActions([]);
  }

  lemma OneInstruction(i: Instruction)
    requires InstructionFits(i)
    ensures EncodeInstructions([i]) == EncodeInstruction(i)
  {
    assert EncodeInstructions([i]) == EncodeInstruction(i) + EncodeInstructions([]);
  }

  /** The switch reads back exactly the intended flow mod, for every port. */
  lemma SwitchRoundTrip(port: u32)
    ensures Decode(SwitchBytes(port)) == Ok(SwitchFlowMod(port))
    ensures WellFormed(SwitchBytes(port))
    ensures !IsPacketIn(SwitchBytes(port))
  {
    SwitchIsEncoding(port);
    RoundTrip(SwitchFlowMod(port));
  }

  /** The buffer after each structure is filled in turn, every step keeping what lies before
      it: only the length at bytes 2 and 3 is missing in the end. */
  lemma Assembled(f: Fields, port: u32, b0: Bytes, b1: Bytes, b2: Bytes, b3: Bytes, b4: Bytes, b5: Bytes)
    requires |b0| == |b1| == |b2| == |b3| == |b4| == |b5| == 80
    requires b0[..2] == [OFP_VERSION, OFPT_FLOW_MOD]
    requires b0[4..24] == Be32(f.xid) + Be64(f.cookie) + Be64(f.cookieMask)
    requires b1[24..32] == [f.tableId, f.command] + Be16(f.idleTimeout) + Be16(f.hardTimeout) + Be16(f.priority)
    requires b2[32..48] == Be32(f.bufferId) + Be32(f.outPort) + Be32(f.outGroup) + Be16(f.flags) + Zeros(2)
    requires b3[48..56] == EncodeMatch([])
    requires b4[56..64] == Be16(OFPIT_APPLY_ACTIONS) + Be16(24) + Zeros(4)
    requires b5[64..80] == EncodeAction(Output(port, OFPCML_NO_BUFFER))
    requires b1[..24] == b0[..24] && b2[..32] == b1[..32] && b3[..48] == b2[..48]
    requires b4[..56] == b3[..56] && b5[..64] == b4[..64]
    ensures b5[..2] + Be16(80) + b5[4..] == FilledBytes(f, port)
  {
    Prefix(b0, b1, 24, 0, 2); Prefix(b1, b2, 32, 0, 2); Prefix(b2, b3, 48, 0, 2);
    Prefix(b3, b4, 56, 0, 2); Prefix(b4, b5, 64, 0, 2);
    Prefix(b0, b1, 24, 4, 24); Prefix(b1, b2, 32, 4, 24); Prefix(b2, b3, 48, 4, 24);
    Prefix(b3, b4, 56, 4, 24); Prefix(b4, b5, 64, 4, 24);
    Prefix(b1, b2, 32, 24, 32); Prefix(b2, b3, 48, 24, 32); Prefix(b3, b4, 56, 24, 32); Prefix(b4, b5, 64, 24, 32);
    Prefix(b2, b3, 48, 32, 48); Prefix(b3, b4, 56, 32, 48); Prefix(b4, b5, 64, 32, 48);
    Prefix(b3, b4, 56, 48, 56); Prefix(b4, b5, 64, 48, 56);
    Prefix(b4, b5, 64, 56, 64);
    Joined(b5);
    IdsLayout(f);
    RulesLayout(f);
    assert ActionList(OFPIT_APPLY_ACTIONS, b5[64..80]) == b5[56..64] + b5[64..80];
  }

  lemma Prefix(b: Bytes, c: Bytes, n: nat, j: nat, k: nat)
    requires j <= k <= n <= |b| == |c| && b[..n] == c[..n]
    ensures b[j..k] == c[j..k]
  {
    assert b[j..k] == b[..n][j..k] && c[j..k] == c[..n][j..k];
  }

  lemma Joined(b: Bytes)
    requires |b| == 80
    ensures b[..2] + Be16(80) + b[4..] ==
            (b[..2] + Be16(80) + b[4..24]) + (b[24..32] + b[32..48]) + b[48..56] + (b[56..64] + b[64..80])
  {
  }

  lemma Spliced(b: Bytes, c: Bytes, m: Bytes)
    requires |b| == |c| == 80 && |m| == 2
    requires b[..2] == c[..2] && b[2..4] == m && b[4..] == c[4..]
    ensures b == c[..2] + m + c[4..]
  {
    assert b == b[..2] + b[2..4] + b[4..];
  }

  lemma IdsLayout(f: Fields)
    ensures EncodeIds(f, 80) ==
            [OFP_VERSION, OFPT_FLOW_MOD] + Be16(80) + (Be32(f.xid) + Be64(f.cookie) + Be64(f.cookieMask))
  {
  }

  lemma RulesLayout(f: Fields)
    ensures EncodeRules(f) ==
            ([f.tableId, f.command] + Be16(f.idleTimeout) + Be16(f.hardTimeout) + Be16(f.priority))
            + (Be32(f.bufferId) + Be32(f.outPort) + Be32(f.outGroup) + Be16(f.flags) + Zeros(2))
  {
  }

  /** The message on the wire, byte by byte: header, cookie and mask; rules; match; instruction
      and action. */
  const WireIds: Bytes := [4, 14] + [0, 80] + [0x12, 0x34, 0x56, 0x78]
                          + [0, 0, 0, 0, 0, 0, 0x06, 0x27] + [0, 0, 0, 0, 0, 0, 0, 0]
  const WireRules: Bytes := [0, 0] + [0, 0] + [0, 0] + [0, 1] + [0xff, 0xff, 0xff, 0xff]
                            + [0xff, 0xff, 0xff, 0xff] + [0xff, 0xff, 0xff, 0xff] + [0, 0] + [0, 0]
  const WireMatch: Bytes := [0, 1, 0, 4, 0, 0, 0, 0]
  const WireApply: Bytes := [0, 4, 0, 24, 0, 0, 0, 0]

  function WireOutput(port: u32): Bytes {
    [0, 0, 0, 16, port / 0x100_0000, port / 0x1_0000 % 0x100, port / 0x100 % 0x100, port % 0x100,
     0xff, 0xff, 0, 0, 0, 0, 0, 0]
  }

  function OnTheWire(port: u32): Bytes {
    WireIds + WireRules + WireMatch + (WireApply + WireOutput(port))
  }

  lemma IdsAreWire(port: u32)
    ensures EncodeIds(SwitchFlowMod(port).fields, 80) == WireIds
  {
    assert Be16(80) == [0, 80];
    XidIsWire();
    CookieIsWire();
  }

  lemma XidIsWire()
    ensures Be32(0x1234_5678) == [0x12, 0x34, 0x56, 0x78]
  {
    Be32Digits(0x1234_5678);
  }

  lemma CookieIsWire()
    ensures Be64(COOKIE_SWITCH) == [0, 0, 0, 0, 0, 0, 0x06, 0x27] && Be64(0) == [0, 0, 0, 0, 0, 0, 0, 0]
  {
    BeDigits(COOKIE_SWITCH);
    BeDigits(0);
  }

  lemma RulesAreWire(port: u32)
    ensures EncodeRules(SwitchFlowMod(port).fields) == WireRules
  {
    assert Be16(0) == [0, 0] && Be16(1) == [0, 1] && Zeros(2) == [0, 0];
    OnesAreWire();
  }

  lemma OnesAreWire()
    ensures Be32(0xffff_ffff) == [0xff, 0xff, 0xff, 0xff]
  {
    Be32Digits(0xffff_ffff);
  }

  lemma MatchIsWire()
    ensures EncodeMatch([]) == WireMatch
  {
  }

  lemma ApplyIsWire(port: u32)
    ensures ActionList(OFPIT_APPLY_ACTIONS, EncodeAction(Output(port, OFPCML_NO_BUFFER))) ==
            WireApply + WireOutput(port)
  {
    ActionsOnWire(port, OFPCML_NO_BUFFER, 0);
    Be32Digits(port);
  }

  /** For every port the switch gets exactly these 80 bytes. */
  lemma SwitchOnTheWire(port: u32)
    ensures SwitchBytes(port) == OnTheWire(port)
  {
    IdsAreWire(port);
    RulesAreWire(port);
    MatchIsWire();
    ApplyIsWire(port);
  }

  class PktMigrator {
    const host: Host
    const port: u32

    constructor (host: Host, port: u32)
      ensures this.host == host && this.port == port
    {
      this.host := host;
      this.port := port;
    }

    /** Write the bytes of one field at `at`; only they change. `start` is where the
        structure being filled begins. */
    method Put(buffer: array<u8>, at: nat, m: Bytes, ghost start: nat)
      requires start <= at && at + |m| <= buffer.Length
      modifies buffer
      ensures buffer[..start] == old(buffer[..start])
      ensures buffer[start..at + |m|] == old(buffer[start..at]) + m
      ensures buffer[at + |m|..] == old(buffer[at + |m|..])
    {
      for i := 0 to |m|
        invariant buffer[..] == old(buffer[..at]) + m[..i] + old(buffer[at + i..])
      {
        buffer[at + i] := m[i];
      }
    }

    /** Write a field converted to network order, as `htons`, `htonl` and `htobe64` do. */
    method PutNet16(buffer: array<u8>, at: nat, v: u16, ghost start: nat)
      requires start <= at && at + 2 <= buffer.Length
      modifies buffer
      ensures buffer[..start] == old(buffer[..start])
      ensures buffer[start..at + 2] == old(buffer[start..at]) + Be16(v)
      ensures buffer[at + 2..] == old(buffer[at + 2..])
    {
      Htons16(host, v);
      Put(buffer, at, Memory(host, Be16(Htons(host, v))), start);
    }

    method PutNet32(buffer: array<u8>, at: nat, v: u32, ghost start: nat)
      requires start <= at && at + 4 <= buffer.Length
      modifies buffer
      ensures buffer[..start] == old(buffer[..start])
      ensures buffer[start..at + 4] == old(buffer[start..at]) + Be32(v)
      ensures buffer[at + 4..] == old(buffer[at + 4..])
    {
      Htonl32(host, v);
      Put(buffer, at, Memory(host, Be32(Htonl(host, v))), start);
    }

    method PutNet64(buffer: array<u8>, at: nat, v: u64, ghost start: nat)
      requires start <= at && at + 8 <= buffer.Length
      modifies buffer
      ensures buffer[..start] == old(buffer[..start])
      ensures buffer[start..at + 8] == old(buffer[start..at]) + Be64(v)
      ensures buffer[at + 8..] == old(buffer[at + 8..])
    {
      Htobe(host, v);
      Put(buffer, at, Memory(host, Be64(Htobe64(host, v))), start);
    }

    /** Write a field that is zero, or all ones, as it is: in the host's own order. */
    method PutHost16(buffer: array<u8>, at: nat, v: u16, ghost start: nat)
      requires start <= at && at + 2 <= buffer.Length
      requires v == 0 || v == 0xffff
      modifies buffer
      ensures buffer[..start] == old(buffer[..start])
      ensures buffer[start..at + 2] == old(buffer[start..at]) + Be16(v)
      ensures buffer[at + 2..] == old(buffer[at + 2..])
    {
      SameByte(host, Be16(v), v / 0x100);
      Put(buffer, at, Memory(host, Be16(v)), start);
    }

    method PutHost32(buffer: array<u8>, at: nat, v: u32, ghost start: nat)
      requires start <= at && at + 4 <= buffer.Length
      requires v == 0 || v == 0xffff_ffff
      modifies buffer
      ensures buffer[..start] == old(buffer[..start])
      ensures buffer[start..at + 4] == old(buffer[start..at]) + Be32(v)
      ensures buffer[at + 4..] == old(buffer[at + 4..])
    {
      SameByte(host, Be32(v), v / 0x100_0000);
      Put(buffer, at, Memory(host, Be32(v)), start);
    }

    method PutHost64(buffer: array<u8>, at: nat, v: u64, ghost start: nat)
      requires start <= at && at + 8 <= buffer.Length
      requires v == 0
      modifies buffer
      ensures buffer[..start] == old(buffer[..start])
      ensures buffer[start..at + 8] == old(buffer[start..at]) + Be64(v)
      ensures buffer[at + 8..] == old(buffer[at + 8..])
    {
      assert Be32(0) == [0, 0, 0, 0];
      SameByte(host, Be64(v), 0);
      Put(buffer, at, Memory(host, Be64(v)), start);
    }

    /** Bytes 0-1 and 4-23; the length at 2-3 is filled in last. */
    method FillIds(buffer: array<u8>, f: Fields)
      requires buffer.Length == 80 && f.cookieMask == 0
      modifies buffer
      ensures buffer[..][..2] == [OFP_VERSION, OFPT_FLOW_MOD]
      ensures buffer[..][4..24] == Be32(f.xid) + Be64(f.cookie) + Be64(f.cookieMask)
    {
      buffer[0] := OFP_VERSION;
      buffer[1] := OFPT_FLOW_MOD;
      assert buffer[..4][..2] == [OFP_VERSION, OFPT_FLOW_MOD];
      PutNet32(buffer, 4, f.xid, 4);
      PutNet64(buffer, 8, f.cookie, 4);
      PutHost64(buffer, 16, f.cookieMask, 4);
      assert buffer[..2] == buffer[..4][..2];
    }

    /** Bytes 24-31. */
    method FillTimers(buffer: array<u8>, f: Fields)
      requires buffer.Length == 80 && f.idleTimeout == f.hardTimeout == 0
      modifies buffer
      ensures buffer[..][..24] == old(buffer[..])[..24]
      ensures buffer[..][24..32] ==
              [f.tableId, f.command] + Be16(f.idleTimeout) + Be16(f.hardTimeout) + Be16(f.priority)
    {
      Put(buffer, 24, [f.tableId, f.command], 24);
      PutHost16(buffer, 26, f.idleTimeout, 24);
      PutHost16(buffer, 28, f.hardTimeout, 24);
      PutNet16(buffer, 30, f.priority, 24);
    }

    /** Bytes 32-47. */
    method FillTargets(buffer: array<u8>, f: Fields)
      requires buffer.Length == 80 && f.flags == 0
      requires f.bufferId == f.outPort == f.outGroup == 0xffff_ffff
      modifies buffer
      ensures buffer[..][..32] == old(buffer[..])[..32]
      ensures buffer[..][32..48] == Be32(f.bufferId) + Be32(f.outPort) + Be32(f.outGroup) + Be16(f.flags) + Zeros(2)
    {
      PutHost32(buffer, 32, f.bufferId, 32);
      PutHost32(buffer, 36, f.outPort, 32);
      PutHost32(buffer, 40, f.outGroup, 32);
      PutHost16(buffer, 44, f.flags, 32);
      Put(buffer, 46, Zeros(2), 32);
    }

    method FillMatch(buffer: array<u8>)
      requires buffer.Length == 80
      modifies buffer
      ensures buffer[..][..48] == old(buffer[..])[..48]
      ensures buffer[..][48..56] == EncodeMatch([])
    {
      PutNet16(buffer, 48, OFPMT_OXM, 48);
      PutNet16(buffer, 50, 8 - 4, 48);
      Put(buffer, 52, Zeros(4), 48);
    }

    method FillInstruction(buffer: array<u8>)
      requires buffer.Length == 80
      modifies buffer
      ensures buffer[..][..56] == old(buffer[..])[..56]
      ensures buffer[..][56..64] == Be16(OFPIT_APPLY_ACTIONS) + Be16(24) + Zeros(4)
    {
      PutNet16(buffer, 56, OFPIT_APPLY_ACTIONS, 56);
      PutNet16(buffer, 58, 8 + 16, 56);
      Put(buffer, 60, Zeros(4), 56);
    }

    method FillAction(buffer: array<u8>)
      requires buffer.Length == 80
      modifies buffer
      ensures buffer[..][..64] == old(buffer[..])[..64]
      ensures buffer[..][64..80] == EncodeAction(Output(port, OFPCML_NO_BUFFER))
    {
      PutNet16(buffer, 64, OFPAT_OUTPUT, 64);
      PutNet16(buffer, 66, 16, 64);
      PutNet32(buffer, 68, port, 64);
      PutHost16(buffer, 72, OFPCML_NO_BUFFER, 64);
      Put(buffer, 74, Zeros(6), 64);
    }

    /** All structures in turn, on one buffer; the length at bytes 2-3 comes last. */
    method FillAll(buffer: array<u8>, f: Fields)
      requires buffer.Length == 80
      requires f.cookieMask == f.idleTimeout == f.hardTimeout == f.flags == 0
      requires f.bufferId == f.outPort == f.outGroup == 0xffff_ffff
      modifies buffer
      ensures buffer[..] == FilledBytes(f, port)
    {
      FillIds(buffer, f);
      ghost var b0 := buffer[..];
      FillTimers(buffer, f);
      ghost var b1 := buffer[..];
      FillTargets(buffer, f);
      ghost var b2 := buffer[..];
      FillMatch(buffer);
      ghost var b3 := buffer[..];
      FillInstruction(buffer);
      ghost var b4 := buffer[..];
      FillAction(buffer);
      ghost var b5 := buffer[..];
      Assembled(f, port, b0, b1, b2, b3, b4, b5);
      PutNet16(buffer, 2, 80, 2);
      Spliced(buffer[..], b5, Be16(80));
    }

    /** Whatever the fresh buffer held and whatever the host's byte order, the message is
        the encoding of the intended flow mod. */
    method PrepareSwitch() returns (m: Message)
      ensures m == SwitchBytes(port) == OnTheWire(port)
    {
      SwitchOnTheWire(port);
      var buffer := new u8[80];
      FillAll(buffer, SwitchFlowMod(port).fields);
      m := buffer[..];
    }
  }
}
