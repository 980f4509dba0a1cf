/** On-chain account layouts: AgentState with its versioned extension (src/tools/agent.ts) and
    ToolState with its nested vectors (src/tools/mcp-program.ts). Strings are their UTF-8 bytes
    and public keys their 32 bytes. */
module Accounts {
  import opened Common
  import opened Arithmetic
  import opened Digits
  import opened Borsh

  // ----- AgentState -----

  datatype Human = Human(strategy: Bytes, sub: Bytes, slot: int)

  datatype Agent = Agent(authority: Bytes, name: Bytes, modelId: Bytes, metadataUri: Bytes, reputation: int,
                         status: int, schemaVersion: int, human: Option<Human>)

  const NO_EXTENSION: Extension := Extension(0, None)

  datatype Extension = Extension(schemaVersion: int, human: Option<Human>)

  /** The fields that every version has. */
  function ReadBase(b: Bytes, o: nat): Read<Agent> {
    var (authority, o1) :- Slice(b, o, 32);
    var (name, o2) :- Vec(b, o1);
    var (modelId, o3) :- Vec(b, o2);
    var (uri, o4) :- Vec(b, o3);
    var (reputation, o5) :- U64(b, o4);
    var (status, o6) :- U8(b, o5);
    Read(Agent(authority, name, modelId, uri, reputation, status, 0, None), o6)
  }

  /** What follows the first string of a human authority. */
  function ReadSubject(b: Bytes, o: nat, strategy: Bytes): Read<Human> {
    var (sub, o1) :- Vec(b, o);
    var (slot, o2) :- U64(b, o1);
    Read(Human(strategy, sub, slot), o2)
  }

  function ReadHuman(b: Bytes, o: nat): Read<Human> {
    var (strategy, o1) :- Vec(b, o);
    ReadSubject(b, o1, strategy)
  }

  /** A read that throws ends the extension with what was read so far. */
  function ReadExtension(b: Bytes, o: nat): Extension {
    var version := U8(b, o);
    if version.Thrown? then NO_EXTENSION
    else
      var flag := U8(b, version.next);
      if flag.Thrown? || flag.value != 1 then Extension(version.value, None)
      else
        var human := ReadHuman(b, flag.next);
        Extension(version.value, if human.Thrown? then None else Some(human.value))
  }

  function ParseAgent(b: Bytes): Option<Agent> {
    if |b| < 40 then None
    else
      var base := ReadBase(b, 8);
      if base.Thrown? then None
      else
        var ext := ReadExtension(b, base.next);
        Some(base.value.(schemaVersion := ext.schemaVersion, human := ext.human))
  }

  /** The parser as the source runs it, on the shared cursor. */
  method ParseAgentState(buf: Bytes) returns (r: Option<Agent>)
    ensures r == ParseAgent(buf)
  {
    if |buf| < 40 {
      return None;
    }
    var reader := new BorshReader(buf);
    reader.Skip(8);
    var authority := reader.ReadBytes(32);
    var name := reader.ReadVec();
    if name.None? { return None; }
    var modelId := reader.ReadVec();
    if modelId.None? { return None; }
    var uri := reader.ReadVec();
    if uri.None? { return None; }
    var reputation := reader.ReadU64();
    if reputation.None? { return None; }
    var status := reader.ReadU8();
    if status.None? { return None; }
    var ext := ParseExtension(reader);
    return Some(Agent(authority, name.value, modelId.value, uri.value, reputation.value, status.value,
                      ext.schemaVersion, ext.human));
  }

  /** The inner try block; its catch keeps the version already read. */
  method ParseExtension(reader: BorshReader) returns (ext: Extension)
    modifies reader
    ensures ext == ReadExtension(reader.buf, old(reader.offset))
  {
    var version := reader.ReadU8();
    if version.None? { return NO_EXTENSION; }
    var flag := reader.ReadU8();
    if flag.None? || flag.value != 1 { return Extension(version.value, None); }
    var strategy := reader.ReadVec();
    if strategy.None? { return Extension(version.value, None); }
    var sub := reader.ReadVec();
    if sub.None? { return Extension(version.value, None); }
    var slot := reader.ReadU64();
    if slot.None? { return Extension(version.value, None); }
    return Extension(version.value, Some(Human(strategy.value, sub.value, slot.value)));
  }

  // ----- its serialization -----

  predicate IsU64(n: int) {
    0 <= n < U64_LIMIT
  }

  predicate Fits(x: Bytes) {
    |x| < U32_LIMIT
  }

  predicate ValidAgent(a: Agent) {
    && |a.authority| == 32 && Fits(a.name) && Fits(a.modelId) && Fits(a.metadataUri) && IsU64(a.reputation)
    && 0 <= a.status < 256 && 0 <= a.schemaVersion < 256
    && (a.human.Some? ==> Fits(a.human.value.strategy) && Fits(a.human.value.sub) && IsU64(a.human.value.slot))
  }

  /** The base fields without the discriminator, first the strings, then the numbers. */
  function Strings(a: Agent): Bytes {
    Prefixed(a.name) + (Prefixed(a.modelId) + Prefixed(a.metadataUri))
  }

  function Numbers(a: Agent): Bytes
    requires ValidAgent(a)
  {
    LeBytes(a.reputation, 8) + [a.status]
  }

  /** The first layout: discriminator and base fields. */
  function SerializeV0(disc: Bytes, a: Agent): Bytes
    requires ValidAgent(a)
  {
    disc + (a.authority + (Strings(a) + Numbers(a)))
  }

  function SerializeHuman(h: Human): Bytes
    requires IsU64(h.slot)
  {
    Prefixed(h.strategy) + (Prefixed(h.sub) + LeBytes(h.slot, 8))
  }

  function SerializeExtension(a: Agent): Bytes
    requires ValidAgent(a)
  {
    [a.schemaVersion] + if a.human.None? then [0] else [1] + SerializeHuman(a.human.value)
  }

  function SerializeV1(disc: Bytes, a: Agent): Bytes
    requires ValidAgent(a)
  {
    SerializeV0(disc, a) + SerializeExtension(a)
  }

  // ----- reading it back -----

  function Base(a: Agent): Agent {
    a.(schemaVersion := 0, human := None)
  }

  /** Three strings in a row. */
  lemma ThreeAt(b: Bytes, o: nat, x: Bytes, y: Bytes, z: Bytes)
    requires Fits(x) && Fits(y) && Fits(z) && At(b, o, Prefixed(x) + (Prefixed(y) + Prefixed(z)))
    ensures var o1 := o + |Prefixed(x)|;
            var o2 := o1 + |Prefixed(y)|;
            Vec(b, o) == Read(x, o1) && Vec(b, o1) == Read(y, o2) && Vec(b, o2) == Read(z, o2 + |Prefixed(z)|)
  {
    AtSplit(b, o, Prefixed(x), Prefixed(y) + Prefixed(z));
    AtSplit(b, o + |Prefixed(x)|, Prefixed(y), Prefixed(z));
    VecAt(b, o, x);
    VecAt(b, o + |Prefixed(x)|, y);
    VecAt(b, o + |Prefixed(x)| + |Prefixed(y)|, z);
  }

  /** Where the parts of a serialized base stand. */
  lemma BaseParts(disc: Bytes, a: Agent, tail: Bytes)
    requires |disc| == 8 && ValidAgent(a)
    ensures var b, o := SerializeV0(disc, a) + tail, 40 + |Strings(a)|;
            At(b, 8, a.authority) && At(b, 40, Strings(a))
            && At(b, o, LeBytes(a.reputation, 8)) && At(b, o + 8, [a.status])
  {
    var b := SerializeV0(disc, a) + tail;
    AtStart(SerializeV0(disc, a), tail);
    AtSplit(b, 0, disc, a.authority + (Strings(a) + Numbers(a)));
    AtSplit(b, 8, a.authority, Strings(a) + Numbers(a));
    AtSplit(b, 40, Strings(a), Numbers(a));
    AtSplit(b, 40 + |Strings(a)|, LeBytes(a.reputation, 8), [a.status]);
  }

  lemma BaseSteps(b: Bytes, a: Agent, o2: nat, o3: nat, o4: nat)
    requires Slice(b, 8, 32) == Read(a.authority, 40) && Vec(b, 40) == Read(a.name, o2)
    requires Vec(b, o2) == Read(a.modelId, o3) && Vec(b, o3) == Read(a.metadataUri, o4)
    requires U64(b, o4) == Read(a.reputation, o4 + 8) && U8(b, o4 + 8) == Read(a.status, o4 + 9)
    ensures ReadBase(b, 8) == Read(Base(a), o4 + 9)
  {
  }

  lemma BaseBack(disc: Bytes, a: Agent, tail: Bytes)
    requires |disc| == 8 && ValidAgent(a)
    ensures ReadBase(SerializeV0(disc, a) + tail, 8) == Read(Base(a), |SerializeV0(disc, a)|)
  {
    var b := SerializeV0(disc, a) + tail;
    var o2 := 40 + |Prefixed(a.name)|;
    var o3 := o2 + |Prefixed(a.modelId)|;
    var o4 := o3 + |Prefixed(a.metadataUri)|;
    assert o4 == 40 + |Strings(a)| && o4 + 9 == |SerializeV0(disc, a)|;
    StringsRead(disc, a, tail);
    NumbersRead(disc, a, tail);
    BaseSteps(b, a, o2, o3, o4);
  }

  lemma StringsRead(disc: Bytes, a: Agent, tail: Bytes)
    requires |disc| == 8 && ValidAgent(a)
    ensures var b, o2 := SerializeV0(disc, a) + tail, 40 + |Prefixed(a.name)|;
            var o3 := o2 + |Prefixed(a.modelId)|;
            && Slice(b, 8, 32) == Read(a.authority, 40) && Vec(b, 40) == Read(a.name, o2)
            && Vec(b, o2) == Read(a.modelId, o3)
            && Vec(b, o3) == Read(a.metadataUri, o3 + |Prefixed(a.metadataUri)|)
  {
    AuthorityRead(disc, a, tail);
    BaseParts(disc, a, tail);
    ThreeAt(SerializeV0(disc, a) + tail, 40, a.name, a.modelId, a.metadataUri);
  }

  lemma AuthorityRead(disc: Bytes, a: Agent, tail: Bytes)
    requires |disc| == 8 && ValidAgent(a)
    ensures Slice(SerializeV0(disc, a) + tail, 8, 32) == Read(a.authority, 40)
  {
    BaseParts(disc, a, tail);
    SliceAt(SerializeV0(disc, a) + tail, 8, a.authority);
  }

  lemma NumbersRead(disc: Bytes, a: Agent, tail: Bytes)
    requires |disc| == 8 && ValidAgent(a)
    ensures var b, o := SerializeV0(disc, a) + tail, 40 + |Strings(a)|;
            U64(b, o) == Read(a.reputation, o + 8) && U8(b, o + 8) == Read(a.status, o + 9)
  {
    BaseParts(disc, a, tail);
    U64At(SerializeV0(disc, a) + tail, 40 + |Strings(a)|, a.reputation);
    U8At(SerializeV0(disc, a) + tail, 40 + |Strings(a)| + 8, a.status);
  }

  lemma HumanAt(b: Bytes, o: nat, h: Human)
    requires Fits(h.strategy) && Fits(h.sub) && IsU64(h.slot) && At(b, o, SerializeHuman(h))
    ensures ReadHuman(b, o) == Read(h, o + |SerializeHuman(h)|)
  {
    var o1 := o + |Prefixed(h.strategy)|;
    AtSplit(b, o, Prefixed(h.strategy), Prefixed(h.sub) + LeBytes(h.slot, 8));
    AtSplit(b, o1, Prefixed(h.sub), LeBytes(h.slot, 8));
    VecAt(b, o, h.strategy);
    VecAt(b, o1, h.sub);
    U64At(b, o1 + |Prefixed(h.sub)|, h.slot);
  }

  lemma ExtensionAt(b: Bytes, o: nat, a: Agent)
    requires ValidAgent(a) && At(b, o, SerializeExtension(a))
    ensures ReadExtension(b, o) == Extension(a.schemaVersion, a.human)
  {
    if a.human.None? {
      AtSplit(b, o, [a.schemaVersion], [0]);
      U8At(b, o + 1, 0);
    } else {
      AtSplit(b, o, [a.schemaVersion], [1] + SerializeHuman(a.human.value));
      AtSplit(b, o + 1, [1], SerializeHuman(a.human.value));
      U8At(b, o + 1, 1);
      HumanAt(b, o + 2, a.human.value);
    }
    U8At(b, o, a.schemaVersion);
  }

  /** A serialized account of the extended layout parses to itself, whatever follows it. */
  lemma AgentV1RoundTrip(disc: Bytes, a: Agent, tail: Bytes)
    requires |disc| == 8 && ValidAgent(a)
    ensures ParseAgent(SerializeV1(disc, a) + tail) == Some(a)
  {
    var v0, ext := SerializeV0(disc, a), SerializeExtension(a);
    Associate(v0, ext, tail);
    BaseBack(disc, a, ext + tail);
    AtStart(v0 + ext, tail);
    AtSplit(v0 + ext + tail, 0, v0, ext);
    ExtensionAt(v0 + ext + tail, |v0|, a);
  }

  /** Whether bytes after the first layout read as no extension: nothing, or version zero with
      no complete human authority. */
  predicate ReadsAsNothing(tail: Bytes) {
    |tail| == 0 || (tail[0] == 0 && (|tail| == 1 || tail[1] != 1 || ReadHuman(tail, 2).Thrown?))
  }

  lemma VecShift(pre: Bytes, t: Bytes, o: nat)
    ensures Vec(pre + t, |pre| + o) == Moved(Vec(t, o), |pre|)
  {
    Shift(pre, t, o);
    var n := U32(t, o);
    if n.Read? && n.value >= 0 { SliceShift(pre, t, n.next, n.value); }
  }

  lemma U64Shift(pre: Bytes, t: Bytes, o: nat)
    ensures U64(pre + t, |pre| + o) == Moved(U64(t, o), |pre|)
  {
    Shift(pre, t, o);
    Shift(pre, t, o + 4);
  }

  lemma SubjectShift(pre: Bytes, t: Bytes, o: nat, strategy: Bytes)
    ensures ReadSubject(pre + t, |pre| + o, strategy) == Moved(ReadSubject(t, o, strategy), |pre|)
  {
    VecShift(pre, t, o);
    var u := Vec(t, o);
    if u.Read? { U64Shift(pre, t, u.next); }
  }

  lemma HumanShift(pre: Bytes, t: Bytes, o: nat)
    ensures ReadHuman(pre + t, |pre| + o) == Moved(ReadHuman(t, o), |pre|)
  {
    VecShift(pre, t, o);
    var s := Vec(t, o);
    if s.Read? { SubjectShift(pre, t, s.next, s.value); }
  }

  lemma ExtensionShift(pre: Bytes, t: Bytes)
    ensures ReadExtension(pre + t, |pre|) == ReadExtension(t, 0)
  {
    Shift(pre, t, 0);
    Shift(pre, t, 1);
    HumanShift(pre, t, 2);
  }

  /** An account of the first layout parses to itself exactly when the bytes after it read as no
      extension. */
  lemma AgentV0RoundTrip(disc: Bytes, a: Agent, tail: Bytes)
    requires |disc| == 8 && ValidAgent(a)
    ensures ParseAgent(SerializeV0(disc, a) + tail) == Some(Base(a)) <==> ReadsAsNothing(tail)
  {
    BaseBack(disc, a, tail);
    ExtensionShift(SerializeV0(disc, a), tail);
  }

  /** In particular when it ends exactly, or is padded with zeros. */
  lemma AgentV0Padded(disc: Bytes, a: Agent, tail: Bytes)
    requires |disc| == 8 && ValidAgent(a) && forall i :: 0 <= i < |tail| ==> tail[i] == 0
    ensures ParseAgent(SerializeV0(disc, a) + tail) == Some(Base(a))
  {
    AgentV0RoundTrip(disc, a, tail);
  }

  // ----- ToolState -----

  datatype Tool = Tool(owner: Bytes, target: Bytes, name: Bytes, description: Bytes, inputUri: Bytes, outputUri: Bytes,
                       tags: seq<Bytes>, access: int, allowlistCount: int, active: bool, invocations: int)

  function ReadHead(b: Bytes, o: nat): Read<Tool> {
    ReadStrings(b, o + 64, Slice(b, o, 32).value, Slice(b, o + 32, 32).value)
  }

  function ReadStrings(b: Bytes, o: nat, owner: Bytes, target: Bytes): Read<Tool> {
    var (name, o1) :- Vec(b, o);
    var (description, o2) :- Vec(b, o1);
    var (inputUri, o3) :- Vec(b, o2);
    var (outputUri, o4) :- Vec(b, o3);
    Read(Tool(owner, target, name, description, inputUri, outputUri, [], 0, 0, false, 0), o4)
  }

  function ReadTags(b: Bytes, o: nat): Read<seq<Bytes>> {
    var (n, o1) :- U32(b, o);
    if n < 0 then Thrown else Vecs(b, o1, n)
  }

  function ReadRest(b: Bytes, o: nat, t: Tool): Read<Tool> {
    var (access, o1) :- U8(b, o);
    var (count, o2) :- U32(b, o1);
    if count < 0 then Thrown
    else
      var (active, o3) :- U8(b, o2 + count * 32);
      var (invocations, o4) :- U64(b, o3);
      Read(t.(access := access, allowlistCount := count, active := active != 0, invocations := invocations), o4)
  }

  function ParseTool(b: Bytes): Option<Tool> {
    if |b| < 72 then None
    else
      var head := ReadHead(b, 8);
      if head.Thrown? then None else ParseAfterHead(b, head.next, head.value)
  }

  function ParseAfterHead(b: Bytes, o: nat, head: Tool): Option<Tool> {
    var tags := ReadTags(b, o);
    if tags.Thrown? then None else ValueOf(ReadRest(b, tags.next, head.(tags := tags.value)))
  }

  method ParseToolState(buf: Bytes) returns (r: Option<Tool>)
    ensures r == ParseTool(buf)
  {
    if |buf| < 72 {
      return None;
    }
    var reader := new BorshReader(buf);
    reader.Skip(8);
    var head := ParseHead(reader);
    if head.None? { return None; }
    var tags := ParseTags(reader);
    if tags.None? { return None; }
    r := ParseRest(reader, head.value.(tags := tags.value));
  }

  /** The fields before the tags. */
  method ParseHead(reader: BorshReader) returns (r: Option<Tool>)
    modifies reader
    ensures r == ValueOf(ReadHead(reader.buf, old(reader.offset)))
    ensures r.Some? ==> reader.offset == ReadHead(reader.buf, old(reader.offset)).next
  {
    var owner := reader.ReadBytes(32);
    var target := reader.ReadBytes(32);
    r := ParseStrings(reader, owner, target, old(reader.offset));
  }

  /** The strings after the two keys that were read at o. */
  method ParseStrings(reader: BorshReader, owner: Bytes, target: Bytes, ghost o: nat) returns (r: Option<Tool>)
    requires reader.offset == o + 64
    requires owner == Slice(reader.buf, o, 32).value && target == Slice(reader.buf, o + 32, 32).value
    modifies reader
    ensures r == ValueOf(ReadHead(reader.buf, o))
    ensures r.Some? ==> reader.offset == ReadHead(reader.buf, o).next
  {
    var name := reader.ReadVec();
    if name.None? { return None; }
    var description := reader.ReadVec();
    if description.None? { return None; }
    var inputUri := reader.ReadVec();
    if inputUri.None? { return None; }
    var outputUri := reader.ReadVec();
    if outputUri.None? { return None; }
    return Some(Tool(owner, target, name.value, description.value, inputUri.value, outputUri.value,
                     [], 0, 0, false, 0));
  }

  /** The counting loop over tags. */
  method ParseTags(reader: BorshReader) returns (r: Option<seq<Bytes>>)
    modifies reader
    ensures r == ValueOf(ReadTags(reader.buf, old(reader.offset)))
    ensures r.Some? ==> reader.offset == ReadTags(reader.buf, old(reader.offset)).next
  {
    var count := reader.ReadU32();
    if count.None? { return None; }
    U32Range(reader.buf, old(reader.offset));
    ghost var start := reader.offset;
    var tags: seq<Bytes> := [];
    PrependNothing(Vecs(reader.buf, start, count.value));
    for i := 0 to count.value
      invariant Vecs(reader.buf, start, count.value) == Prepend(tags, Vecs(reader.buf, reader.offset, count.value - i))
    {
      VecsStep(reader.buf, reader.offset, count.value - i, tags);
      var tag := reader.ReadVec();
      if tag.None? { return None; }
      tags := tags + [tag.value];
    }
    assert tags + [] == tags;
    return Some(tags);
  }

  method ParseRest(reader: BorshReader, t: Tool) returns (r: Option<Tool>)
    modifies reader
    ensures r == ValueOf(ReadRest(reader.buf, old(reader.offset), t))
  {
    var access := reader.ReadU8();
    if access.None? { return None; }
    ghost var o := reader.offset;
    var count := reader.ReadU32();
    if count.None? { return None; }
    U32Range(reader.buf, o);
    reader.Skip(count.value * 32);
    var active := reader.ReadU8();
    if active.None? { return None; }
    var invocations := reader.ReadU64();
    if invocations.None? { return None; }
    return Some(t.(access := access.value, allowlistCount := count.value, active := active.value != 0,
                   invocations := invocations.value));
  }

  predicate ValidTool(t: Tool) {
    && |t.owner| == 32 && |t.target| == 32 && Fits(t.name) && Fits(t.description)
    && Fits(t.inputUri) && Fits(t.outputUri)
    && |t.tags| < U32_LIMIT && (forall i :: 0 <= i < |t.tags| ==> Fits(t.tags[i]))
    && 0 <= t.access < 256 && 0 <= t.allowlistCount < U32_LIMIT && IsU64(t.invocations)
  }

  /** The fields before the tags, without the discriminator. */
  function Heading(t: Tool): Bytes {
    t.owner + (t.target + (Strings3(t) + Prefixed(t.outputUri)))
  }

  function Strings3(t: Tool): Bytes {
    Prefixed(t.name) + (Prefixed(t.description) + Prefixed(t.inputUri))
  }

  function SerializeTags(t: Tool): Bytes {
    LeBytes(|t.tags|, 4) + PrefixedAll(t.tags)
  }

  function SerializeRest(t: Tool, allowlist: Bytes, flag: Byte): Bytes
    requires ValidTool(t)
  {
    [t.access] + (LeBytes(t.allowlistCount, 4)
    + (allowlist + ([flag] + LeBytes(t.invocations, 8))))
  }

  /** allowlist is the concatenation of the 32-byte keys; flag is the byte of the boolean, any
      nonzero byte for true. */
  function SerializeTool(disc: Bytes, t: Tool, allowlist: Bytes, flag: Byte): Bytes
    requires ValidTool(t)
  {
    disc + (Heading(t) + Body(t, allowlist, flag))
  }

  lemma StringsSteps(b: Bytes, o: nat, t: Tool, o1: nat, o2: nat, o3: nat, o4: nat)
    requires Vec(b, o) == Read(t.name, o1) && Vec(b, o1) == Read(t.description, o2)
    requires Vec(b, o2) == Read(t.inputUri, o3) && Vec(b, o3) == Read(t.outputUri, o4)
    ensures ReadStrings(b, o, t.owner, t.target)
         == Read(HeadOnly(t), o4)
  {
  }

  lemma StringsAt(b: Bytes, o: nat, t: Tool)
    requires ValidTool(t) && At(b, o, Strings3(t) + Prefixed(t.outputUri))
    ensures ReadStrings(b, o, t.owner, t.target)
         == Read(HeadOnly(t), o + |Strings3(t)| + |Prefixed(t.outputUri)|)
  {
    var o1 := o + |Prefixed(t.name)|;
    var o2 := o1 + |Prefixed(t.description)|;
    var o3 := o2 + |Prefixed(t.inputUri)|;
    assert o3 == o + |Strings3(t)|;
    AtSplit(b, o, Strings3(t), Prefixed(t.outputUri));
    ThreeAt(b, o, t.name, t.description, t.inputUri);
    VecAt(b, o3, t.outputUri);
    StringsSteps(b, o, t, o1, o2, o3, o3 + |Prefixed(t.outputUri)|);
  }

  lemma HeadingAt(b: Bytes, o: nat, t: Tool)
    requires ValidTool(t) && At(b, o, Heading(t))
    ensures ReadHead(b, o) == Read(HeadOnly(t), o + |Heading(t)|)
  {
    var strings := Strings3(t) + Prefixed(t.outputUri);
    AtSplit(b, o, t.owner, t.target + strings);
    AtSplit(b, o + 32, t.target, strings);
    SliceAt(b, o, t.owner);
    SliceAt(b, o + 32, t.target);
    StringsAt(b, o + 64, t);
  }

  lemma TagsAt(b: Bytes, o: nat, t: Tool)
    requires ValidTool(t) && At(b, o, SerializeTags(t))
    ensures ReadTags(b, o) == Read(t.tags, o + |SerializeTags(t)|)
  {
    AtSplit(b, o, LeBytes(|t.tags|, 4), PrefixedAll(t.tags));
    U32At(b, o, |t.tags|);
    VecsAt(b, o + 4, t.tags);
  }

  lemma RestParts(b: Bytes, o: nat, t: Tool, allowlist: Bytes, flag: Byte)
    requires ValidTool(t) && At(b, o, SerializeRest(t, allowlist, flag))
    ensures At(b, o, [t.access]) && At(b, o + 1, LeBytes(t.allowlistCount, 4))
    ensures At(b, o + 5 + |allowlist|, [flag])
    ensures At(b, o + 6 + |allowlist|, LeBytes(t.invocations, 8))
  {
    var last := [flag] + LeBytes(t.invocations, 8);
    AtSplit(b, o, [t.access], LeBytes(t.allowlistCount, 4) + (allowlist + last));
    AtSplit(b, o + 1, LeBytes(t.allowlistCount, 4), allowlist + last);
    AtSplit(b, o + 5, allowlist, last);
    AtSplit(b, o + 5 + |allowlist|, [flag], LeBytes(t.invocations, 8));
  }

  lemma RestAt(b: Bytes, o: nat, t: Tool, base: Tool, allowlist: Bytes, flag: Byte)
    requires ValidTool(t) && |allowlist| == t.allowlistCount * 32 && t.active == (flag != 0)
    requires At(b, o, SerializeRest(t, allowlist, flag))
    ensures ReadRest(b, o, base).Read?
    ensures ReadRest(b, o, base).value
         == base.(access := t.access, allowlistCount := t.allowlistCount, active := t.active,
                  invocations := t.invocations)
  {
    var o3: nat := o + 5 + |allowlist|;
    RestParts(b, o, t, allowlist, flag);
    U8At(b, o, t.access);
    U32At(b, o + 1, t.allowlistCount);
    U8At(b, o3, flag);
    U64At(b, o3 + 1, t.invocations);
    RestSteps(b, o, t, base, flag as int, o3);
  }

  lemma RestSteps(b: Bytes, o: nat, t: Tool, base: Tool, flag: int, o3: nat)
    requires U8(b, o) == Read(t.access, o + 1) && U32(b, o + 1) == Read(t.allowlistCount, o + 5)
    requires t.allowlistCount >= 0 && o3 == o + 5 + t.allowlistCount * 32
    requires U8(b, o3) == Read(flag, o3 + 1) && U64(b, o3 + 1) == Read(t.invocations, o3 + 9)
    ensures ReadRest(b, o, base)
         == Read(base.(access := t.access, allowlistCount := t.allowlistCount, active := flag != 0,
                       invocations := t.invocations), o3 + 9)
  {
  }

  /** Where the parts of a serialized tool account stand. */
  lemma ToolParts(disc: Bytes, t: Tool, allowlist: Bytes, flag: Byte, tail: Bytes)
    requires |disc| == 8 && ValidTool(t)
    ensures var b := SerializeTool(disc, t, allowlist, flag) + tail;
            |b| >= 72 && At(b, 8, Heading(t)) && At(b, 8 + |Heading(t)|, Body(t, allowlist, flag))
  {
    assert |Heading(t)| >= 64;
    ThreeParts(disc, Heading(t), Body(t, allowlist, flag), tail);
  }

  /** What follows the heading. */
  function Body(t: Tool, allowlist: Bytes, flag: Byte): Bytes
    requires ValidTool(t)
  {
    SerializeTags(t) + SerializeRest(t, allowlist, flag)
  }

  lemma ThreeParts(x: Bytes, y: Bytes, z: Bytes, tail: Bytes)
    ensures var b := (x + (y + z)) + tail; |b| >= |x| + |y| && At(b, |x|, y) && At(b, |x| + |y|, z)
  {
    var b := (x + (y + z)) + tail;
    AtStart(x + (y + z), tail);
    AtSplit(b, 0, x, y + z);
    AtSplit(b, |x|, y, z);
  }

  /** A serialized tool account parses to itself, for any tags, any allowlist and anything after
      it. */
  lemma ToolRoundTrip(disc: Bytes, t: Tool, allowlist: Bytes, flag: Byte, tail: Bytes)
    requires |disc| == 8 && ValidTool(t) && |allowlist| == t.allowlistCount * 32 && t.active == (flag != 0)
    ensures ParseTool(SerializeTool(disc, t, allowlist, flag) + tail) == Some(t)
  {
    ToolParts(disc, t, allowlist, flag, tail);
    ToolAt(SerializeTool(disc, t, allowlist, flag) + tail, t, allowlist, flag);
  }

  /** The fields before the tags, as read on their own. */
  function HeadOnly(t: Tool): Tool {
    Tool(t.owner, t.target, t.name, t.description, t.inputUri, t.outputUri, [], 0, 0, false, 0)
  }

  /** An account whose parts stand in the buffer one after the other. */
  lemma ToolAt(b: Bytes, t: Tool, allowlist: Bytes, flag: Byte)
    requires ValidTool(t) && |allowlist| == t.allowlistCount * 32 && t.active == (flag != 0)
    requires |b| >= 72 && At(b, 8, Heading(t))
    requires At(b, 8 + |Heading(t)|, Body(t, allowlist, flag))
    ensures ParseTool(b) == Some(t)
  {
    var o := 8 + |Heading(t)|;
    HeadingAt(b, 8, t);
    ParseToolFrom(b, HeadOnly(t), o);
    ToolFromHead(b, t, allowlist, flag, o);
  }

  lemma ParseToolFrom(b: Bytes, head: Tool, o: nat)
    requires |b| >= 72 && ReadHead(b, 8) == Read(head, o)
    ensures ParseTool(b) == ParseAfterHead(b, o, head)
  {
  }

  lemma ToolFromHead(b: Bytes, t: Tool, allowlist: Bytes, flag: Byte, o: nat)
    requires ValidTool(t) && |allowlist| == t.allowlistCount * 32 && t.active == (flag != 0)
    requires At(b, o, Body(t, allowlist, flag))
    ensures ParseAfterHead(b, o, HeadOnly(t)) == Some(t)
  {
    AtSplit(b, o, SerializeTags(t), SerializeRest(t, allowlist, flag));
    TagsAt(b, o, t);
    AfterHeadIs(b, o, HeadOnly(t), t.tags, o + |SerializeTags(t)|);
    RestGives(b, o + |SerializeTags(t)|, t, allowlist, flag);
  }

  lemma AfterHeadIs(b: Bytes, o: nat, head: Tool, tags: seq<Bytes>, o2: nat)
    requires ReadTags(b, o) == Read(tags, o2)
    ensures ParseAfterHead(b, o, head) == ValueOf(ReadRest(b, o2, head.(tags := tags)))
  {
  }

  lemma RestGives(b: Bytes, o: nat, t: Tool, allowlist: Bytes, flag: Byte)
    requires ValidTool(t) && |allowlist| == t.allowlistCount * 32 && t.active == (flag != 0)
    requires At(b, o, SerializeRest(t, allowlist, flag))
    ensures var rest := ReadRest(b, o, HeadOnly(t).(tags := t.tags)); rest.Read? && rest.value == t
  {
    RestAt(b, o, t, HeadOnly(t).(tags := t.tags), allowlist, flag);
  }

  // ----- accounts that are cut short -----

  predicate IsPrefixOf(p: Bytes, b: Bytes) {
    |p| <= |b| && p == b[..|p|]
  }

  lemma IntegersSame(p: Bytes, b: Bytes, o: nat)
    requires IsPrefixOf(p, b)
    ensures U8(p, o).Read? ==> U8(b, o) == U8(p, o) && U8(p, o).next <= |p|
    ensures U32(p, o).Read? ==> U32(b, o) == U32(p, o)
  {
    if o + 4 <= |p| { assert p[o..o + 4] == b[o..o + 4]; }
  }

  lemma U64Same(p: Bytes, b: Bytes, o: nat)
    requires IsPrefixOf(p, b)
    ensures U64(p, o).Read? ==> U64(b, o) == U64(p, o)
  {
    IntegersSame(p, b, o);
    IntegersSame(p, b, o + 4);
  }

  /** A vector that is cut short still moves the offset as the whole one does. */
  lemma VecSame(p: Bytes, b: Bytes, o: nat)
    requires IsPrefixOf(p, b)
    ensures Vec(p, o).Read? ==> Vec(b, o).Read? && Vec(b, o).next == Vec(p, o).next
  {
    IntegersSame(p, b, o);
  }

  /** Where the reputation starts. */
  function AfterStrings(b: Bytes): Read<nat> {
    var (name, o2) :- Vec(b, 40);
    var (modelId, o3) :- Vec(b, o2);
    var (uri, o4) :- Vec(b, o3);
    Read(o4, o4)
  }

  lemma StringsSame(p: Bytes, b: Bytes)
    requires IsPrefixOf(p, b)
    ensures AfterStrings(p).Read? ==> AfterStrings(b) == AfterStrings(p)
  {
    VecSame(p, b, 40);
    var x := Vec(p, 40);
    if x.Read? {
      VecSame(p, b, x.next);
      var y := Vec(p, x.next);
      if y.Read? { VecSame(p, b, y.next); }
    }
  }

  lemma BaseNeeds(b: Bytes)
    ensures ReadBase(b, 8).Read? ==>
              && AfterStrings(b).Read? && U64(b, AfterStrings(b).value).Read?
              && U8(b, AfterStrings(b).value + 8).Read? && ReadBase(b, 8).next == AfterStrings(b).value + 9
  {
  }

  /** An account that is cut anywhere before its end is refused, even where it ends inside a
      string that the reader would cut short. */
  lemma TruncatedAgentFails(disc: Bytes, a: Agent, n: nat)
    requires |disc| == 8 && ValidAgent(a) && n < |SerializeV0(disc, a)|
    ensures ParseAgent(SerializeV0(disc, a)[..n]) == None
  {
    var b := SerializeV0(disc, a);
    var p := b[..n];
    BaseBack(disc, a, []);
    assert b + [] == b;
    BaseNeeds(b);
    BaseNeeds(p);
    if ReadBase(p, 8).Read? {
      StringsSame(p, b);
      IntegersSame(p, b, AfterStrings(p).value + 8);
    }
  }
}
