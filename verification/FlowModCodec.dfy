/**
 The flow modification message of the OpenFlow Switch Specification 1.3.4: header
 (section 7.1), match (7.2.3), instructions (7.2.4), actions (7.2.5) and the message
 itself (7.3.4.1), with a decoder that checks every length, type and pad byte.
 */
module FlowModCodec {
  import opened Bytes
  import opened Framing

  const OFP_VERSION: u8 := 0x04
  const OFPT_FLOW_MOD: u8 := 14
  const OFPMT_OXM: u16 := 1
  const OFPIT_GOTO_TABLE: u16 := 1
  const OFPIT_WRITE_ACTIONS: u16 := 3
  const OFPIT_APPLY_ACTIONS: u16 := 4
  const OFPAT_OUTPUT: u16 := 0
  const OFPAT_GROUP: u16 := 22

  datatype Action =
    | Output(port: u32, maxLen: u16)
    | Group(groupId: u32)

  datatype Instruction =
    | GotoTable(tableId: u8)
    | WriteActions(actions: seq<Action>)
    | ApplyActions(actions: seq<Action>)

  /** The fixed 48 bytes of a flow mod, without version, type and length. */
  datatype Fields = Fields(xid: u32, cookie: u64, cookieMask: u64, tableId: u8, command: u8,
                           idleTimeout: u16, hardTimeout: u16, priority: u16, bufferId: u32,
                           outPort: u32, outGroup: u32, flags: u16)

  datatype FlowMod = FlowMod(fields: Fields, oxmFields: Bytes, instructions: seq<Instruction>)

  datatype DecodeError = Truncated | BadVersion | BadType | BadLength | BadPadding

  datatype Result<+T> = Ok(value: T) | Err(error: DecodeError) {
    predicate IsFailure() {
      Err?
    }
    function PropagateFailure<U>(): Result<U>
      requires Err?
    {
      Err(error)
    }
    function Extract(): T
      requires Ok?
    {
      value
    }
  }

  function Zeros(n: nat): (b: Bytes)
    ensures |b| == n
  {
    seq(n, _ => 0)
  }

  // ---------------------------------------------------------------- actions

  function EncodeAction(a: Action): (b: Bytes)
    ensures |b| >= 8 && |b| % 8 == 0 && |b| <= 16 && U16At(b, 2) == |b|
  {
    match a
    case Output(port, maxLen) => Be16(OFPAT_OUTPUT) + Be16(16) + Be32(port) + Be16(maxLen) + Zeros(6)
    case Group(id) => Be16(OFPAT_GROUP) + Be16(8) + Be32(id)
  }

  function EncodeActions(actions: seq<Action>): Bytes {
    if actions == [] then [] else EncodeAction(actions[0]) + EncodeActions(actions[1..])
  }

  function DecodeAction(b: Bytes): Result<Action>
    requires |b| >= 8
  {
    if U16At(b, 0) == OFPAT_OUTPUT then
      if |b| != 16 then Err(BadLength)
      else if b[10..] != Zeros(6) then Err(BadPadding)
      else Ok(Output(U32At(b, 4), U16At(b, 8)))
    else if U16At(b, 0) == OFPAT_GROUP then
      if |b| != 8 then Err(BadLength) else Ok(Group(U32At(b, 4)))
    else
      Err(BadType)
  }

  /** The length field of the structure at the head of `b` is a multiple of 8 that fits. */
  predicate FitsInside(b: Bytes)
    requires |b| >= 8
  {
    8 <= U16At(b, 2) <= |b| && U16At(b, 2) % 8 == 0
  }

  function DecodeActions(b: Bytes): Result<seq<Action>>
  {
    if b == [] then Ok([])
    else if |b| < 8 then Err(Truncated)
    else if !FitsInside(b) then Err(BadLength)
    else
      var a :- DecodeAction(b[..U16At(b, 2)]);
      var rest :- DecodeActions(b[U16At(b, 2)..]);
      Ok([a] + rest)
  }

  lemma ActionRoundTrip(a: Action)
    ensures DecodeAction(EncodeAction(a)) == Ok(a)
  {
    var b := EncodeAction(a);
    match a
    case Output(port, maxLen) =>
      assert b[4..8] == Be32(port) && b[8..10] == Be16(maxLen) && b[10..] == Zeros(6);
      assert U32At(b, 4) == U32At(b[4..8], 0) && U16At(b, 8) == U16At(b[8..10], 0);
    case Group(id) =>
      assert b[4..8] == Be32(id);
      assert U32At(b, 4) == U32At(b[4..8], 0);
  }

  lemma ActionSound(b: Bytes)
    requires |b| >= 8 && U16At(b, 2) == |b| && DecodeAction(b).Ok?
    ensures EncodeAction(DecodeAction(b).value) == b
  {
    Be16OfU16At(b, 0);
    Be16OfU16At(b, 2);
    Be32OfU32At(b, 4);
    if U16At(b, 0) == OFPAT_OUTPUT {
      Be16OfU16At(b, 8);
      assert b == b[0..2] + b[2..4] + b[4..8] + b[8..10] + b[10..];
    } else {
      assert b == b[0..2] + b[2..4] + b[4..8];
    }
  }

  lemma DecodeActionsCons(h: Bytes, t: Bytes)
    requires |h| >= 8 && |h| % 8 == 0 && U16At(h, 2) == |h|
    requires DecodeAction(h).Ok? && DecodeActions(t).Ok?
    ensures DecodeActions(h + t) == Ok([DecodeAction(h).value] + DecodeActions(t).value)
  {
    assert U16At(h + t, 2) == U16At(h, 2);
    assert (h + t)[..|h|] == h && (h + t)[|h|..] == t;
  }

  lemma {:induction false} ActionsRoundTrip(actions: seq<Action>)
    ensures DecodeActions(EncodeActions(actions)) == Ok(actions)
  {
    if actions != [] {
      ActionsRoundTrip(actions[1..]);
      ActionRoundTrip(actions[0]);
      DecodeActionsCons(EncodeAction(actions[0]), EncodeActions(actions[1..]));
      assert actions == [actions[0]] + actions[1..];
    }
  }

  lemma {:induction false} ActionsAligned(actions: seq<Action>)
    ensures |EncodeActions(actions)| % 8 == 0
  {
    if actions != [] {
      ActionsAligned(actions[1..]);
    }
  }

  lemma {:induction false} ActionsSound(b: Bytes)
    requires DecodeActions(b).Ok?
    ensures EncodeActions(DecodeActions(b).value) == b
    decreases |b|
  {
    if b != [] {
      var n, a, rest := ActionsStep(b);
      ActionSound(b[..n]);
      ActionsSound(b[n..]);
      ActionsRejoin(b, n, a, rest);
    }
  }

  lemma ActionsRejoin(b: Bytes, n: nat, a: Action, rest: seq<Action>)
    requires n <= |b| && EncodeAction(a) == b[..n] && EncodeActions(rest) == b[n..]
    ensures EncodeActions([a] + rest) == b
  {
    ActionsCons(a, rest);
    assert b == b[..n] + b[n..];
  }

  /** What one step of a successful decoding consists of. */
  lemma ActionsStep(b: Bytes) returns (n: nat, a: Action, rest: seq<Action>)
    requires b != [] && DecodeActions(b).Ok?
    ensures 8 <= n <= |b| && U16At(b[..n], 2) == n
    ensures DecodeAction(b[..n]) == Ok(a) && DecodeActions(b[n..]) == Ok(rest)
    ensures DecodeActions(b) == Ok([a] + rest)
  {
    n := U16At(b, 2);
    a := DecodeAction(b[..n]).value;
    rest := DecodeActions(b[n..]).value;
  }

  lemma ActionsCons(a: Action, rest: seq<Action>)
    ensures EncodeActions([a] + rest) == EncodeAction(a) + EncodeActions(rest)
  {
    assert ([a] + rest)[1..] == rest;
  }

  // ----------------------------------------------------------- instructions

  function EncodeInstruction(i: Instruction): (b: Bytes)
    requires InstructionFits(i)
    ensures |b| == InstructionSize(i) && U16At(b, 2) == |b|
  {
    match i
    case GotoTable(t) => Be16(OFPIT_GOTO_TABLE) + Be16(8) + [t] + Zeros(3)
    case WriteActions(actions) => ActionList(OFPIT_WRITE_ACTIONS, EncodeActions(actions))
    case ApplyActions(actions) => ActionList(OFPIT_APPLY_ACTIONS, EncodeActions(actions))
  }

  function ActionList(kind: u16, actions: Bytes): (b: Bytes)
    requires 8 + |actions| < 0x1_0000
    ensures |b| == 8 + |actions| && U16At(b, 2) == |b|
  {
    Be16(kind) + Be16(8 + |actions|) + Zeros(4) + actions
  }

  function InstructionSize(i: Instruction): nat {
    match i
    case GotoTable(_) => 8
    case WriteActions(actions) => 8 + |EncodeActions(actions)|
    case ApplyActions(actions) => 8 + |EncodeActions(actions)|
  }

  predicate InstructionFits(i: Instruction) {
    InstructionSize(i) < 0x1_0000
  }

  predicate InstructionsFit(list: seq<Instruction>) {
    forall i :: 0 <= i < |list| ==> InstructionFits(list[i])
  }

  function EncodeInstructions(list: seq<Instruction>): Bytes
    requires InstructionsFit(list)
  {
    if list == [] then [] else EncodeInstruction(list[0]) + EncodeInstructions(list[1..])
  }

  function DecodeInstruction(b: Bytes): Result<Instruction>
    requires |b| >= 8
  {
    if U16At(b, 0) == OFPIT_GOTO_TABLE then
      if |b| != 8 then Err(BadLength)
      else if b[5..] != Zeros(3) then Err(BadPadding)
      else Ok(GotoTable(b[4]))
    else if U16At(b, 0) == OFPIT_WRITE_ACTIONS || U16At(b, 0) == OFPIT_APPLY_ACTIONS then
      if b[4..8] != Zeros(4) then Err(BadPadding)
      else
        var actions :- DecodeActions(b[8..]);
        Ok(if U16At(b, 0) == OFPIT_WRITE_ACTIONS then WriteActions(actions) else ApplyActions(actions))
    else
      Err(BadType)
  }

  function DecodeInstructions(b: Bytes): Result<seq<Instruction>>
  {
    if b == [] then Ok([])
    else if |b| < 8 then Err(Truncated)
    else if !FitsInside(b) then Err(BadLength)
    else
      var i :- DecodeInstruction(b[..U16At(b, 2)]);
      var rest :- DecodeInstructions(b[U16At(b, 2)..]);
      Ok([i] + rest)
  }

  lemma ActionListParts(kind: u16, actions: Bytes)
    requires 8 + |actions| < 0x1_0000
    ensures var b := ActionList(kind, actions);
            U16At(b, 0) == kind && b[4..8] == Zeros(4) && b[8..] == actions
  {
    var b := ActionList(kind, actions);
    assert U16At(b, 0) == U16At(Be16(kind), 0);
  }

  lemma GotoTableRoundTrip(t: u8)
    ensures DecodeInstruction(EncodeInstruction(GotoTable(t))) == Ok(GotoTable(t))
  {
    var b := EncodeInstruction(GotoTable(t));
    assert U16At(b, 0) == U16At(Be16(OFPIT_GOTO_TABLE), 0);
    assert b[5..] == Zeros(3);
  }

  lemma InstructionRoundTrip(i: Instruction)
    requires InstructionFits(i)
    ensures DecodeInstruction(EncodeInstruction(i)) == Ok(i)
  {
    match i
    case GotoTable(t) =>
      GotoTableRoundTrip(t);
    case WriteActions(actions) =>
      ActionsRoundTrip(actions);
      ActionListParts(OFPIT_WRITE_ACTIONS, EncodeActions(actions));
    case ApplyActions(actions) =>
      ActionsRoundTrip(actions);
      ActionListParts(OFPIT_APPLY_ACTIONS, EncodeActions(actions));
  }

  lemma InstructionAligned(i: Instruction)
    requires InstructionFits(i)
    ensures |EncodeInstruction(i)| % 8 == 0
  {
    if !i.GotoTable? {
      ActionsAligned(i.actions);
    }
  }

  lemma ActionListSound(b: Bytes)
    requires |b| >= 8 && U16At(b, 2) == |b| && b[4..8] == Zeros(4)
    ensures ActionList(U16At(b, 0), b[8..]) == b
  {
    Be16OfU16At(b, 0);
    Be16OfU16At(b, 2);
    assert b == b[0..2] + b[2..4] + b[4..8] + b[8..];
  }

  lemma GotoTableSound(b: Bytes)
    requires |b| == 8 && U16At(b, 0) == OFPIT_GOTO_TABLE && U16At(b, 2) == |b| && b[5..] == Zeros(3)
    ensures EncodeInstruction(GotoTable(b[4])) == b
  {
    Be16OfU16At(b, 0);
    Be16OfU16At(b, 2);
    assert b == b[0..2] + b[2..4] + [b[4]] + b[5..];
  }

  lemma InstructionSound(b: Bytes)
    requires |b| >= 8 && U16At(b, 2) == |b| && DecodeInstruction(b).Ok?
    ensures InstructionFits(DecodeInstruction(b).value)
    ensures EncodeInstruction(DecodeInstruction(b).value) == b
  {
    if U16At(b, 0) == OFPIT_GOTO_TABLE {
      GotoTableSound(b);
    } else {
      ActionListSound(b);
      ActionsSound(b[8..]);
    }
  }

  lemma DecodeInstructionsCons(h: Bytes, t: Bytes)
    requires |h| >= 8 && |h| % 8 == 0 && U16At(h, 2) == |h|
    requires DecodeInstruction(h).Ok? && DecodeInstructions(t).Ok?
    ensures DecodeInstructions(h + t) == Ok([DecodeInstruction(h).value] + DecodeInstructions(t).value)
  {
    assert U16At(h + t, 2) == U16At(h, 2);
    assert (h + t)[..|h|] == h && (h + t)[|h|..] == t;
  }

  lemma {:induction false} InstructionsRoundTrip(list: seq<Instruction>)
    requires InstructionsFit(list)
    ensures DecodeInstructions(EncodeInstructions(list)) == Ok(list)
  {
    if list != [] {
      var i, rest := list[0], list[1..];
      assert list == [i] + rest;
      InstructionsRoundTrip(rest);
      InstructionRoundTrip(i);
      InstructionAligned(i);
      DecodeInstructionsCons(EncodeInstruction(i), EncodeInstructions(rest));
    }
  }

  lemma InstructionsCons(i: Instruction, rest: seq<Instruction>)
    requires InstructionFits(i) && InstructionsFit(rest)
    ensures InstructionsFit([i] + rest)
    ensures EncodeInstructions([i] + rest) == EncodeInstruction(i) + EncodeInstructions(rest)
  {
    assert ([i] + rest)[1..] == rest;
  }

  /** What one step of a successful decoding consists of. */
  lemma InstructionsStep(b: Bytes) returns (n: nat, i: Instruction, rest: seq<Instruction>)
    requires b != [] && DecodeInstructions(b).Ok?
    ensures 8 <= n <= |b| && U16At(b[..n], 2) == n
    ensures DecodeInstruction(b[..n]) == Ok(i) && DecodeInstructions(b[n..]) == Ok(rest)
    ensures DecodeInstructions(b) == Ok([i] + rest)
  {
    n := U16At(b, 2);
    i := DecodeInstruction(b[..n]).value;
    rest := DecodeInstructions(b[n..]).value;
  }

  lemma {:induction false} InstructionsSound(b: Bytes)
    requires DecodeInstructions(b).Ok?
    ensures InstructionsFit(DecodeInstructions(b).value)
    ensures EncodeInstructions(DecodeInstructions(b).value) == b
    decreases |b|
  {
    if b != [] {
      var n, i, rest := InstructionsStep(b);
      InstructionSound(b[..n]);
      InstructionsSound(b[n..]);
      InstructionsCons(i, rest);
      assert b == b[..n] + b[n..];
    }
  }

  // ------------------------------------------------------------------ match

  /** The size of a match structure with its padding: the next multiple of 8. */
  function Padded(n: nat): (p: nat)
    ensures n <= p < n + 8 && p % 8 == 0
  {
    (n + 7) / 8 * 8
  }

  function EncodeMatch(oxm: Bytes): (b: Bytes)
    requires 4 + |oxm| < 0x1_0000
    ensures |b| == Padded(4 + |oxm|) && |b| >= 8
  {
    Be16(OFPMT_OXM) + Be16(4 + |oxm|) + oxm + Zeros(Padded(4 + |oxm|) - (4 + |oxm|))
  }

  datatype MatchCut = MatchCut(oxm: Bytes, rest: Bytes)

  /** Split a match structure off the head of `b`. */
  function DecodeMatch(b: Bytes): Result<MatchCut>
    requires |b| >= 8
  {
    var n := U16At(b, 2);
    if U16At(b, 0) != OFPMT_OXM then Err(BadType)
    else if n < 4 || |b| < Padded(n) then Err(BadLength)
    else if b[n..Padded(n)] != Zeros(Padded(n) - n) then Err(BadPadding)
    else Ok(MatchCut(b[4..n], b[Padded(n)..]))
  }

  lemma MatchRoundTrip(oxm: Bytes, rest: Bytes)
    requires 4 + |oxm| < 0x1_0000
    ensures DecodeMatch(EncodeMatch(oxm) + rest) == Ok(MatchCut(oxm, rest))
  {
    var e := EncodeMatch(oxm);
    var b, n := e + rest, 4 + |oxm|;
    assert b[0..2] == Be16(OFPMT_OXM) && b[2..4] == Be16(n);
    assert U16At(b, 0) == U16At(b[0..2], 0) && U16At(b, 2) == U16At(b[2..4], 0);
    assert b[4..n] == oxm;
    assert b[n..Padded(n)] == Zeros(Padded(n) - n);
    assert b[Padded(n)..] == rest;
  }

  lemma MatchSound(b: Bytes)
    requires |b| >= 8 && DecodeMatch(b).Ok?
    ensures 4 + |DecodeMatch(b).value.oxm| < 0x1_0000
    ensures EncodeMatch(DecodeMatch(b).value.oxm) + DecodeMatch(b).value.rest == b
  {
    Be16OfU16At(b, 0);
    Be16OfU16At(b, 2);
    var n := U16At(b, 2);
    assert b == b[0..2] + b[2..4] + b[4..n] + b[n..Padded(n)] + b[Padded(n)..];
  }

  // ------------------------------------------------------------ fixed fields

  function EncodeIds(f: Fields, size: u16): (b: Bytes)
    ensures |b| == 24
  {
    [OFP_VERSION, OFPT_FLOW_MOD] + Be16(size) + Be32(f.xid) + Be64(f.cookie) + Be64(f.cookieMask)
  }

  function EncodeRules(f: Fields): (b: Bytes)
    ensures |b| == 24
  {
    [f.tableId, f.command] + Be16(f.idleTimeout) + Be16(f.hardTimeout) + Be16(f.priority)
    + Be32(f.bufferId) + Be32(f.outPort) + Be32(f.outGroup) + Be16(f.flags) + Zeros(2)
  }

  function DecodeFields(b: Bytes): Fields
    requires |b| >= 48
  {
    Fields(U32At(b, 4), U64At(b, 8), U64At(b, 16), b[24], b[25], U16At(b, 26), U16At(b, 28),
           U16At(b, 30), U32At(b, 32), U32At(b, 36), U32At(b, 40), U16At(b, 44))
  }

  /** One field of a structure written as fields side by side. */
  lemma Slice(before: Bytes, field: Bytes, after: Bytes, b: Bytes)
    requires b == before + field + after
    ensures b[|before|..|before| + |field|] == field
  {
  }

  lemma IdsParts(f: Fields, size: u16)
    ensures var b := EncodeIds(f, size);
            && b[0] == OFP_VERSION && b[1] == OFPT_FLOW_MOD && U16At(b, 2) == size
            && U32At(b, 4) == f.xid && U64At(b, 8) == f.cookie && U64At(b, 16) == f.cookieMask
  {
    var b := EncodeIds(f, size);
    var head, xid, cookie, mask := [OFP_VERSION, OFPT_FLOW_MOD], Be32(f.xid), Be64(f.cookie), Be64(f.cookieMask);
    Slice(head, Be16(size), xid + cookie + mask, b);
    Slice(head + Be16(size), xid, cookie + mask, b);
    Slice(head + Be16(size) + xid, cookie, mask, b);
    Slice(head + Be16(size) + xid + cookie, mask, [], b);
    assert U16At(b, 2) == U16At(b[2..4], 0) && U32At(b, 4) == U32At(b[4..8], 0);
    assert U64At(b, 8) == U64At(b[8..16], 0);
    assert U64At(b, 16) == U64At(b[16..24], 0);
  }

  lemma RulesParts(f: Fields)
    ensures var b := EncodeRules(f);
            && b[0] == f.tableId && b[1] == f.command
            && U16At(b, 2) == f.idleTimeout && U16At(b, 4) == f.hardTimeout && U16At(b, 6) == f.priority
            && U32At(b, 8) == f.bufferId && U32At(b, 12) == f.outPort && U32At(b, 16) == f.outGroup
            && U16At(b, 20) == f.flags && b[22..] == Zeros(2)
  {
    var b := EncodeRules(f);
    assert b[2..4] == Be16(f.idleTimeout) && b[4..6] == Be16(f.hardTimeout) && b[6..8] == Be16(f.priority);
    assert b[8..12] == Be32(f.bufferId) && b[12..16] == Be32(f.outPort) && b[16..20] == Be32(f.outGroup);
    assert b[20..22] == Be16(f.flags);
    assert U16At(b, 2) == U16At(b[2..4], 0) && U16At(b, 4) == U16At(b[4..6], 0);
    assert U16At(b, 6) == U16At(b[6..8], 0) && U16At(b, 20) == U16At(b[20..22], 0);
    assert U32At(b, 8) == U32At(b[8..12], 0) && U32At(b, 12) == U32At(b[12..16], 0);
    assert U32At(b, 16) == U32At(b[16..20], 0);
  }

  // ---------------------------------------------------------------- messages

  /** Every nested structure, and so the whole message, fits a 16-bit length. */
  predicate Encodable(m: FlowMod) {
    && 4 + |m.oxmFields| < 0x1_0000
    && InstructionsFit(m.instructions)
    && 48 + Padded(4 + |m.oxmFields|) + |EncodeInstructions(m.instructions)| < 0x1_0000
  }

  function Encode(m: FlowMod): (b: Bytes)
    requires Encodable(m)
    ensures |b| == 48 + Padded(4 + |m.oxmFields|) + |EncodeInstructions(m.instructions)|
  {
    Assemble(m.fields, EncodeMatch(m.oxmFields) + EncodeInstructions(m.instructions))
  }

  /** The fixed fields, with the length of the whole, before the rest. */
  function Assemble(f: Fields, tail: Bytes): (b: Bytes)
    requires 48 + |tail| < 0x1_0000
    ensures |b| == 48 + |tail|
  {
    EncodeIds(f, 48 + |tail|) + EncodeRules(f) + tail
  }

  function Decode(b: Bytes): Result<FlowMod>
  {
    if |b| < 56 then Err(Truncated)
    else if b[0] != OFP_VERSION then Err(BadVersion)
    else if b[1] != OFPT_FLOW_MOD then Err(BadType)
    else if U16At(b, 2) != |b| then Err(BadLength)
    else if b[46..48] != Zeros(2) then Err(BadPadding)
    else
      var m :- DecodeMatch(b[48..]);
      var list :- DecodeInstructions(m.rest);
      Ok(FlowMod(DecodeFields(b), m.oxm, list))
  }

  lemma FieldsRoundTrip(f: Fields, size: u16, tail: Bytes, b: Bytes)
    requires b == EncodeIds(f, size) + EncodeRules(f) + tail
    ensures && b[0] == OFP_VERSION && b[1] == OFPT_FLOW_MOD && U16At(b, 2) == size
            && b[46..48] == Zeros(2) && DecodeFields(b) == f
  {
    var ids, rules := EncodeIds(f, size), EncodeRules(f);
    IdsParts(f, size);
    RulesParts(f);
    assert forall i: nat :: i < 24 ==> b[i] == ids[i];
    assert forall i: nat :: i < 24 ==> b[24 + i] == rules[i];
    assert b[46..48] == rules[22..];
    assert U32At(b, 4) == U32At(ids, 4) && U64At(b, 8) == U64At(ids, 8) && U64At(b, 16) == U64At(ids, 16);
    assert b[24] == rules[0] && b[25] == rules[1];
    assert U16At(b, 26) == U16At(rules, 2) && U16At(b, 28) == U16At(rules, 4) && U16At(b, 30) == U16At(rules, 6);
    assert U32At(b, 32) == U32At(rules, 8) && U32At(b, 36) == U32At(rules, 12) && U32At(b, 40) == U32At(rules, 16);
    assert U16At(b, 44) == U16At(rules, 20);
  }

  lemma DecodeParts(b: Bytes, oxm: Bytes, list: seq<Instruction>)
    requires |b| >= 56 && b[0] == OFP_VERSION && b[1] == OFPT_FLOW_MOD && U16At(b, 2) == |b|
    requires b[46..48] == Zeros(2)
    requires DecodeMatch(b[48..]).Ok? && DecodeInstructions(DecodeMatch(b[48..]).value.rest) == Ok(list)
    requires oxm == DecodeMatch(b[48..]).value.oxm
    ensures Decode(b) == Ok(FlowMod(DecodeFields(b), oxm, list))
  {
  }

  lemma AssembledTail(f: Fields, tail: Bytes)
    requires 48 + |tail| < 0x1_0000
    ensures Assemble(f, tail)[48..] == tail
  {
    assert |EncodeIds(f, 48 + |tail|) + EncodeRules(f)| == 48;
  }

  lemma DecodeAssembled(f: Fields, tail: Bytes, oxm: Bytes, list: Bytes, instructions: seq<Instruction>)
    requires 8 <= |tail| < 0x1_0000 - 48 && DecodeMatch(tail) == Ok(MatchCut(oxm, list))
    requires DecodeInstructions(list) == Ok(instructions)
    ensures Decode(Assemble(f, tail)) == Ok(FlowMod(f, oxm, instructions))
    ensures WellFormed(Assemble(f, tail))
  {
    FieldsRoundTrip(f, 48 + |tail|, tail, Assemble(f, tail));
    AssembledTail(f, tail);
    DecodeParts(Assemble(f, tail), oxm, instructions);
  }

  /** Decoding inverts encoding, for every flow mod that fits its length fields. */
  lemma RoundTrip(m: FlowMod)
    requires Encodable(m)
    ensures Decode(Encode(m)) == Ok(m)
    ensures WellFormed(Encode(m))
  {
    var list := EncodeInstructions(m.instructions);
    MatchRoundTrip(m.oxmFields, list);
    InstructionsRoundTrip(m.instructions);
    DecodeAssembled(m.fields, EncodeMatch(m.oxmFields) + list, m.oxmFields, list, m.instructions);
  }

  lemma FieldsSound(b: Bytes)
    requires |b| >= 48 && b[0] == OFP_VERSION && b[1] == OFPT_FLOW_MOD && b[46..48] == Zeros(2)
    ensures EncodeIds(DecodeFields(b), U16At(b, 2)) + EncodeRules(DecodeFields(b)) == b[..48]
  {
    var f := DecodeFields(b);
    Be16OfU16At(b, 2); Be32OfU32At(b, 4); Be64OfU64At(b, 8); Be64OfU64At(b, 16);
    assert b[..24] == [b[0], b[1]] + b[2..4] + b[4..8] + b[8..16] + b[16..24];
    Be16OfU16At(b, 26); Be16OfU16At(b, 28); Be16OfU16At(b, 30); Be16OfU16At(b, 44);
    Be32OfU32At(b, 32); Be32OfU32At(b, 36); Be32OfU32At(b, 40);
    assert b[24..48] == [b[24], b[25]] + b[26..28] + b[28..30] + b[30..32]
                        + b[32..36] + b[36..40] + b[40..44] + b[44..46] + b[46..48];
    assert b[..48] == b[..24] + b[24..48];
  }

  lemma EncodeParts(m: FlowMod, list: Bytes)
    requires 4 + |m.oxmFields| < 0x1_0000 && InstructionsFit(m.instructions)
    requires list == EncodeInstructions(m.instructions)
    requires 48 + |EncodeMatch(m.oxmFields)| + |list| < 0x1_0000
    ensures Encodable(m)
    ensures Encode(m) == Assemble(m.fields, EncodeMatch(m.oxmFields) + list)
  {
  }

  /** The decoder accepts nothing but encodings: what it returns encodes to the very bytes
      it was given, so two buffers never decode to the same flow mod. */
  lemma Sound(b: Bytes)
    requires Decode(b).Ok?
    ensures Encodable(Decode(b).value)
    ensures Encode(Decode(b).value) == b
  {
    var cut := DecodeMatch(b[48..]).value;
    FieldsSound(b);
    MatchSound(b[48..]);
    InstructionsSound(cut.rest);
    EncodeParts(Decode(b).value, cut.rest);
    assert b == b[..48] + b[48..];
  }

  // ------------------------------------------------------------ the wire

  /** The layout of the standard, in numbers: actions. */
  lemma ActionsOnWire(port: u32, maxLen: u16, id: u32)
    ensures EncodeAction(Output(port, maxLen)) == [0, 0, 0, 16] + Be32(port) + Be16(maxLen) + [0, 0, 0, 0, 0, 0]
    ensures EncodeAction(Group(id)) == [0, 22, 0, 8] + Be32(id)
  {
  }

  /** Instructions; the lengths are those of the whole structures. */
  lemma GotoTableOnWire(table: u8)
    ensures EncodeInstruction(GotoTable(table)) == [0, 1, 0, 8, table, 0, 0, 0]
  {
  }

  lemma InstructionsOnWire(actions: seq<Action>)
    requires 8 + |EncodeActions(actions)| < 0x1_0000
    ensures var b := EncodeActions(actions);
            && EncodeInstruction(WriteActions(actions)) == [0, 3] + Be16(8 + |b|) + [0, 0, 0, 0] + b
            && EncodeInstruction(ApplyActions(actions)) == [0, 4] + Be16(8 + |b|) + [0, 0, 0, 0] + b
  {
    assert Be16(3) == [0, 3] && Be16(4) == [0, 4] && Zeros(4) == [0, 0, 0, 0];
  }

  /** A match: its length leaves out the padding to a multiple of 8. */
  lemma MatchOnWire(oxm: Bytes)
    requires 4 + |oxm| < 0x1_0000
    ensures var b, n := EncodeMatch(oxm), 4 + |oxm|;
            && |b| == (n + 7) / 8 * 8 && b[..4] == [0, 1] + Be16(n) && b[4..n] == oxm
            && forall i :: n <= i < |b| ==> b[i] == 0
  {
  }

  /** The fixed fields of a message of any size, each at its place. */
  lemma FieldsOnWire(f: Fields, tail: Bytes)
    requires 48 + |tail| < 0x1_0000
    ensures var b := Assemble(f, tail);
            && b[..8] == [4, 14] + Be16(|b|) + Be32(f.xid)
            && b[8..24] == Be64(f.cookie) + Be64(f.cookieMask)
            && b[24..32] == [f.tableId, f.command] + Be16(f.idleTimeout) + Be16(f.hardTimeout) + Be16(f.priority)
            && b[32..44] == Be32(f.bufferId) + Be32(f.outPort) + Be32(f.outGroup)
            && b[44..48] == Be16(f.flags) + [0, 0] && b[48..] == tail
  {
    var ids, rules := EncodeIds(f, 48 + |tail|), EncodeRules(f);
    IdsOnWire(f, 48 + |tail|);
    RulesOnWire(f);
    Inside(ids, rules, tail, 0, 8);
    Inside(ids, rules, tail, 8, 24);
    Inside2(ids, rules, tail, 0, 8);
    Inside2(ids, rules, tail, 8, 20);
    Inside2(ids, rules, tail, 20, 24);
  }

  lemma IdsOnWire(f: Fields, size: u16)
    ensures var b := EncodeIds(f, size);
            && b[..8] == [4, 14] + Be16(size) + Be32(f.xid) && b[8..24] == Be64(f.cookie) + Be64(f.cookieMask)
  {
  }

  lemma RulesOnWire(f: Fields)
    ensures var b := EncodeRules(f);
            && b[..8] == [f.tableId, f.command] + Be16(f.idleTimeout) + Be16(f.hardTimeout) + Be16(f.priority)
            && b[8..20] == Be32(f.bufferId) + Be32(f.outPort) + Be32(f.outGroup)
            && b[20..24] == Be16(f.flags) + [0, 0]
  {
  }

  lemma Inside(a: Bytes, b: Bytes, c: Bytes, i: nat, j: nat)
    requires i <= j <= |a|
    ensures (a + b + c)[i..j] == a[i..j]
  {
  }

  lemma Inside2(a: Bytes, b: Bytes, c: Bytes, i: nat, j: nat)
    requires i <= j <= |b|
    ensures (a + b + c)[|a| + i..|a| + j] == b[i..j]
  {
  }
}
