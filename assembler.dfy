/** The two-pass assembler of src/asm.rs: symbolic instructions with
    optional labels and operands are encoded into a flat byte sequence whose
    jump operands are patched, after the emission pass, with the offsets of
    the labels they name. */
module Assembler {
  import opened Results
  import opened Bytecode

  /** An instruction operand: none, a label to jump to, or an immediate. */
  datatype Operand = NoOperand | Target(name: string) | Value(value: Word)

  /** One symbolic instruction. */
  datatype Insn = Insn(labelName: Option<string>, opcode: Opcode, operand: Operand)

  /** The one way assembly fails: a target names a label nobody defines. */
  datatype AsmError = MissingLabel(name: string)

  /** A pending patch: the operand byte at `offset` receives the offset of
      label `name`. */
  datatype Relocation = Relocation(name: string, offset: nat)

  // ---------------------------------------------------------------------
  // Builders (`Insn::new`, `set_label`, `set_value`, `set_target`)

  function New(op: Opcode): (insn: Insn)
    ensures insn.opcode == op && insn.labelName == None && insn.operand == NoOperand
  {
    Insn(None, op, NoOperand)
  }

  /** Replaces the label and nothing else. */
  function SetLabel(insn: Insn, name: string): (r: Insn)
    ensures r.labelName == Some(name)
    ensures r.opcode == insn.opcode && r.operand == insn.operand
  {
    insn.(labelName := Some(name))
  }

  /** Replaces the operand by an immediate and nothing else. */
  function SetValue(insn: Insn, value: Word): (r: Insn)
    ensures r.operand == Value(value)
    ensures r.labelName == insn.labelName && r.opcode == insn.opcode
  {
    insn.(operand := Value(value))
  }

  /** Replaces the operand by a jump target and nothing else. */
  function SetTarget(insn: Insn, name: string): (r: Insn)
    ensures r.operand == Target(name)
    ensures r.labelName == insn.labelName && r.opcode == insn.opcode
  {
    insn.(operand := Target(name))
  }

  // ---------------------------------------------------------------------
  // The layout of the output

  /** The bytes an instruction takes: its opcode, and one more byte exactly
      when it carries an operand (whatever the opcode's arity). */
  function Size(insn: Insn): (n: nat)
    ensures 1 <= n <= 2
    ensures n == 2 <==> !insn.operand.NoOperand?
  {
    if insn.operand.NoOperand? then 1 else 2
  }

  /** The number of instructions that carry an operand. */
  function OperandCount(source: seq<Insn>): (n: nat)
    ensures n <= |source|
  {
    if source == [] then 0
    else OperandCount(source[..|source| - 1]) + if source[|source| - 1].operand.NoOperand? then 0 else 1
  }

  /** Total encoded length: the sum of the sizes. */
  function EncodedLength(source: seq<Insn>): (n: nat)
    ensures |source| <= n <= 2 * |source|
  {
    if source == [] then 0
    else EncodedLength(source[..|source| - 1]) + Size(source[|source| - 1])
  }

  /** The start offset of instruction `i`. */
  function Offset(source: seq<Insn>, i: nat): nat
    requires i <= |source|
  {
    EncodedLength(source[..i])
  }

  /** The bytes the first pass emits for one instruction: the discriminant,
      then a reserved 0 for a target or the immediate truncated to a byte. */
  function Encode(insn: Insn): (b: seq<Byte>)
    ensures |b| == Size(insn)
  {
    [Code(insn.opcode)] +
    match insn.operand
    case NoOperand => []
    case Target(_) => [0]
    case Value(v) => [v % 0x100]
  }

  // ---------------------------------------------------------------------
  // The two passes as functions over a growing prefix of the source

  /** The bytes after the emission pass. */
  function Emit(source: seq<Insn>): seq<Byte> {
    if source == [] then []
    else Emit(source[..|source| - 1]) + Encode(source[|source| - 1])
  }

  /** The label table after the emission pass: each label maps to the
      offset of its latest definition (`HashMap::insert` overwrites). */
  function Labels(source: seq<Insn>): map<string, nat> {
    if source == [] then map[]
    else
      var prefix, insn := source[..|source| - 1], source[|source| - 1];
      if insn.labelName.Some? then Labels(prefix)[insn.labelName.value := |Emit(prefix)|]
      else Labels(prefix)
  }

  /** The pending relocations after the emission pass, in source order;
      each points at a reserved 0 byte, and their offsets increase. */
  function Relocations(source: seq<Insn>): (rs: seq<Relocation>)
    ensures forall k :: 0 <= k < |rs| ==> rs[k].offset < |Emit(source)| && Emit(source)[rs[k].offset] == 0
    ensures forall a, b :: 0 <= a < b < |rs| ==> rs[a].offset < rs[b].offset
  {
    if source == [] then []
    else
      var prefix, insn := source[..|source| - 1], source[|source| - 1];
      var rest := Relocations(prefix);
      assert Emit(source) == Emit(prefix) + Encode(insn);
      if insn.operand.Target? then rest + [Relocation(insn.operand.name, |Emit(prefix)| + 1)]
      else rest
  }

  /** The relocation pass: patch each reserved byte with its label's offset
      truncated to a byte, failing on the first label that is not defined. */
  function Patch(bytes: seq<Byte>, relocations: seq<Relocation>, labels: map<string, nat>): Result<seq<Byte>, AsmError>
    requires forall k :: 0 <= k < |relocations| ==> relocations[k].offset < |bytes|
    decreases |relocations|
  {
    if relocations == [] then Ok(bytes)
    else
      var r := relocations[0];
      if r.name !in labels then Err(MissingLabel(r.name))
      else Patch(bytes[r.offset := labels[r.name] % 0x100], relocations[1..], labels)
  }

  /** What `assemble` computes. */
  function Assembled(source: seq<Insn>): Result<seq<Byte>, AsmError> {
    Patch(Emit(source), Relocations(source), Labels(source))
  }

  /** The first pass over one more instruction appends its encoding,
      records its label at the current length and, for a target, a
      relocation one byte further. */
  lemma PrefixStep(source: seq<Insn>, k: nat)
    requires k < |source|
    ensures Emit(source[..k + 1]) == Emit(source[..k]) + Encode(source[k])
    ensures Labels(source[..k + 1]) ==
      if source[k].labelName.Some? then Labels(source[..k])[source[k].labelName.value := |Emit(source[..k])|]
      else Labels(source[..k])
    ensures Relocations(source[..k + 1]) == Relocations(source[..k]) +
      if source[k].operand.Target? then [Relocation(source[k].operand.name, |Emit(source[..k])| + 1)] else []
  {
    assert source[..k + 1][..k] == source[..k];
  }

  // ---------------------------------------------------------------------
  // The implementation

  /** `assemble`: the emission loop fills the byte vector, the label table
      and the relocation list; the relocation loop then patches the bytes. */
  method Assemble(source: seq<Insn>) returns (r: Result<seq<Byte>, AsmError>)
    ensures r == Assembled(source)
  {
    var bytecodes: seq<Byte>, labels, relocations := EmissionPass(source);
    for k := 0 to |relocations|
      invariant |bytecodes| == |Emit(source)|
      invariant Patch(bytecodes, relocations[k..], labels) == Assembled(source)
    {
      var Relocation(name, offset) := relocations[k];
      if name !in labels {
        return Err(MissingLabel(name));
      }
      bytecodes := bytecodes[offset := labels[name] % 0x100];
    }
    return Ok(bytecodes);
  }

  /** The first loop of `assemble`. */
  method EmissionPass(source: seq<Insn>)
      returns (bytecodes: seq<Byte>, labels: map<string, nat>, relocations: seq<Relocation>)
    ensures bytecodes == Emit(source)
    ensures labels == Labels(source)
    ensures relocations == Relocations(source)
  {
    labels := map[];
    relocations := [];
    bytecodes := [];
    for i := 0 to |source|
      invariant bytecodes == Emit(source[..i])
      invariant labels == Labels(source[..i])
      invariant relocations == Relocations(source[..i])
    {
      var insn := source[i];
      ghost var before := bytecodes;
      PrefixStep(source, i);
      if insn.labelName.Some? {
        labels := labels[insn.labelName.value := |bytecodes|];
      }
      bytecodes := bytecodes + [Code(insn.opcode)];
      match insn.operand {
        case NoOperand =>
        case Target(name) =>
          relocations := relocations + [Relocation(name, |bytecodes|)];
          bytecodes := bytecodes + [0];
        case Value(value) =>
          bytecodes := bytecodes + [value % 0x100];
      }
      assert bytecodes == before + Encode(insn);
    }
    assert source[..|source|] == source;
  }

  // ---------------------------------------------------------------------
  // Properties of the encoding

  /** The encoded length is the number of instructions plus the number of
      operands. */
  lemma {:induction false} EncodedLengthCount(source: seq<Insn>)
    ensures EncodedLength(source) == |source| + OperandCount(source)
    decreases |source|
  {
    if source != [] {
      EncodedLengthCount(source[..|source| - 1]);
    }
  }

  /** Offsets of a prefix are offsets of the whole. */
  lemma OffsetPrefix(source: seq<Insn>, n: nat, i: nat)
    requires i <= n <= |source|
    ensures Offset(source[..n], i) == Offset(source, i)
  {
    assert source[..n][..i] == source[..i];
  }

  /** Instruction `i + 1` starts right after instruction `i`. */
  lemma OffsetNext(source: seq<Insn>, i: nat)
    requires i < |source|
    ensures Offset(source, i + 1) == Offset(source, i) + Size(source[i])
  {
    assert source[..i + 1][..i] == source[..i];
  }

  /** The emitted bytes are as many as the encoded length. */
  lemma {:induction false} EmitLength(source: seq<Insn>)
    ensures |Emit(source)| == EncodedLength(source)
    decreases |source|
  {
    if source != [] {
      EmitLength(source[..|source| - 1]);
    }
  }

  /** Instruction `i`'s encoding sits at its offset in the emitted bytes:
      its opcode, then the truncated immediate or the reserved 0 of a
      target. */
  lemma {:induction false} EmitAt(source: seq<Insn>, i: nat)
    requires i < |source|
    ensures Offset(source, i) + Size(source[i]) <= |Emit(source)|
    ensures Emit(source)[Offset(source, i)] == Code(source[i].opcode)
    ensures source[i].operand.Value? ==> Emit(source)[Offset(source, i) + 1] == source[i].operand.value % 0x100
    ensures source[i].operand.Target? ==> Emit(source)[Offset(source, i) + 1] == 0
    decreases |source|
  {
    var n := |source| - 1;
    var prefix := source[..n];
    assert Emit(source) == Emit(prefix) + Encode(source[n]);
    EmitLength(prefix);
    if i < n {
      EmitAt(prefix, i);
      OffsetPrefix(source, n, i);
      assert prefix[i] == source[i];
    } else {
      assert source[..n] == prefix;
      assert Offset(source, i) == |Emit(prefix)|;
    }
  }

  /** The emitted bytes are the instructions' encodings laid end to end. */
  lemma EmitLayout(source: seq<Insn>)
    ensures |Emit(source)| == EncodedLength(source)
    ensures forall i :: 0 <= i < |source| ==>
      && Offset(source, i) + Size(source[i]) <= |Emit(source)|
      && Emit(source)[Offset(source, i)] == Code(source[i].opcode)
      && (source[i].operand.Value? ==> Emit(source)[Offset(source, i) + 1] == source[i].operand.value % 0x100)
      && (source[i].operand.Target? ==> Emit(source)[Offset(source, i) + 1] == 0)
  {
    EmitLength(source);
    forall i | 0 <= i < |source| {
      EmitAt(source, i);
    }
  }

  /** Label `name` is defined somewhere in the source. */
  predicate Defines(source: seq<Insn>, name: string) {
    exists j :: 0 <= j < |source| && source[j].labelName == Some(name)
  }

  /** Instruction `j` is the last one carrying label `name`. */
  predicate LastDefinition(source: seq<Insn>, name: string, j: nat) {
    && j < |source| && source[j].labelName == Some(name)
    && forall k :: j < k < |source| ==> source[k].labelName != Some(name)
  }

  /** The label table holds exactly the defined labels. */
  lemma {:induction false} LabelsDomain(source: seq<Insn>, name: string)
    ensures name in Labels(source) <==> Defines(source, name)
    decreases |source|
  {
    if source != [] {
      var n := |source| - 1;
      var prefix := source[..n];
      LabelsDomain(prefix, name);
      if Defines(prefix, name) {
        var j :| 0 <= j < |prefix| && prefix[j].labelName == Some(name);
        assert source[j].labelName == Some(name);
      }
      if Defines(source, name) && source[n].labelName != Some(name) {
        var j :| 0 <= j < |source| && source[j].labelName == Some(name);
        assert prefix[j].labelName == Some(name);
      }
    }
  }

  /** Each label maps to the offset of its last definition: duplicates are
      last-wins. */
  lemma {:induction false} LabelsLastWins(source: seq<Insn>, name: string, j: nat)
    requires LastDefinition(source, name, j)
    ensures name in Labels(source) && Labels(source)[name] == Offset(source, j)
    decreases |source|
  {
    var n := |source| - 1;
    var prefix := source[..n];
    if j < n {
      assert LastDefinition(prefix, name, j);
      LabelsLastWins(prefix, name, j);
      OffsetPrefix(source, n, j);
    } else {
      EmitLayout(prefix);
      assert source[..n] == prefix;
    }
  }

  /** Each relocation sits one byte after the start of an instruction whose
      operand names its label. */
  lemma {:induction false} RelocationFromTarget(source: seq<Insn>, k: nat)
    requires k < |Relocations(source)|
    ensures exists i ::
              && 0 <= i < |source| && source[i].operand == Target(Relocations(source)[k].name)
              && Relocations(source)[k].offset == Offset(source, i) + 1
    decreases |source|
  {
    var n := |source| - 1;
    var prefix := source[..n];
    var rest := Relocations(prefix);
    var own := if source[n].operand.Target? then [Relocation(source[n].operand.name, |Emit(prefix)| + 1)] else [];
    assert Relocations(source) == rest + own;
    if k < |rest| {
      RelocationFromTarget(prefix, k);
      var i :| 0 <= i < |prefix| && prefix[i].operand == Target(rest[k].name)
        && rest[k].offset == Offset(prefix, i) + 1;
      OffsetPrefix(source, n, i);
      assert source[i] == prefix[i];
      assert Relocations(source)[k] == rest[k];
    } else {
      EmitLayout(prefix);
      assert source[..n] == prefix;
      assert source[n].operand == Target(Relocations(source)[k].name);
    }
  }

  /** Every target operand has its relocation. */
  lemma {:induction false} TargetHasRelocation(source: seq<Insn>, i: nat)
    requires i < |source| && source[i].operand.Target?
    ensures exists k ::
              && 0 <= k < |Relocations(source)|
              && Relocations(source)[k] == Relocation(source[i].operand.name, Offset(source, i) + 1)
    decreases |source|
  {
    var n := |source| - 1;
    var prefix := source[..n];
    var rest := Relocations(prefix);
    var own := if source[n].operand.Target? then [Relocation(source[n].operand.name, |Emit(prefix)| + 1)] else [];
    assert Relocations(source) == rest + own;
    if i < n {
      assert prefix[i] == source[i];
      TargetHasRelocation(prefix, i);
      var k :| 0 <= k < |rest| && rest[k] == Relocation(prefix[i].operand.name, Offset(prefix, i) + 1);
      OffsetPrefix(source, n, i);
      assert 0 <= k < |Relocations(source)| && Relocations(source)[k] == rest[k];
    } else {
      EmitLength(prefix);
      assert source[..n] == prefix;
      assert 0 <= |rest| < |Relocations(source)|;
      assert Relocations(source)[|rest|] == Relocation(source[i].operand.name, Offset(source, i) + 1);
    }
  }

  /** The relocation pass succeeds iff every relocation's label is in the
      table; then it writes each label's offset (mod 256) into exactly its
      reserved bytes and leaves every other byte and the length alone. On
      failure it names a label that is missing. */
  lemma {:induction false} PatchSpec(bytes: seq<Byte>, relocations: seq<Relocation>, labels: map<string, nat>)
    requires forall k :: 0 <= k < |relocations| ==> relocations[k].offset < |bytes|
    requires forall a, b :: 0 <= a < b < |relocations| ==> relocations[a].offset < relocations[b].offset
    ensures Patch(bytes, relocations, labels).Ok? <==>
      forall k :: 0 <= k < |relocations| ==> relocations[k].name in labels
    ensures Patch(bytes, relocations, labels).Ok? ==>
      var b := Patch(bytes, relocations, labels).value;
      && |b| == |bytes|
      && (forall k :: 0 <= k < |relocations| ==>
            b[relocations[k].offset] == labels[relocations[k].name] % 0x100)
      && (forall p :: 0 <= p < |bytes| && (forall k :: 0 <= k < |relocations| ==> relocations[k].offset != p) ==>
            b[p] == bytes[p])
    ensures Patch(bytes, relocations, labels).Err? ==>
      var name := Patch(bytes, relocations, labels).error.name;
      name !in labels && exists k :: 0 <= k < |relocations| && relocations[k].name == name
    decreases |relocations|
  {
    if relocations != [] {
      var r := relocations[0];
      if r.name in labels {
        var bytes' := bytes[r.offset := labels[r.name] % 0x100];
        var rest := relocations[1..];
        PatchSpec(bytes', rest, labels);
        assert forall k :: 1 <= k < |relocations| ==> relocations[k] == rest[k - 1];
      }
    }
  }

  /** No relocation patches an opcode byte or an immediate. */
  lemma RelocationsMissUntargeted(source: seq<Insn>, i: nat)
    requires i < |source|
    ensures forall k :: 0 <= k < |Relocations(source)| ==>
      && Relocations(source)[k].offset != Offset(source, i)
      && (!source[i].operand.Target? ==> Relocations(source)[k].offset != Offset(source, i) + 1)
  {
    forall k | 0 <= k < |Relocations(source)|
      ensures Relocations(source)[k].offset != Offset(source, i)
      ensures !source[i].operand.Target? ==> Relocations(source)[k].offset != Offset(source, i) + 1
    {
      RelocationFromTarget(source, k);
      var j :| 0 <= j < |source| && source[j].operand == Target(Relocations(source)[k].name)
        && Relocations(source)[k].offset == Offset(source, j) + 1;
      if i != j {
        OffsetsApart(source, i, j);
      }
    }
  }

  /** Distinct instructions occupy disjoint byte ranges. */
  lemma {:induction false} OffsetsApart(source: seq<Insn>, i: nat, j: nat)
    requires i < |source| && j < |source| && i != j
    ensures Offset(source, i) + Size(source[i]) <= Offset(source, j) || Offset(source, j) + Size(source[j]) <= Offset(source, i)
  {
    if i < j {
      OffsetsIncrease(source, i + 1, j);
      OffsetNext(source, i);
    } else {
      OffsetsIncrease(source, j + 1, i);
      OffsetNext(source, j);
    }
  }

  /** Offsets never decrease along the source. */
  lemma {:induction false} OffsetsIncrease(source: seq<Insn>, i: nat, j: nat)
    requires i <= j <= |source|
    ensures Offset(source, i) <= Offset(source, j)
    decreases j - i
  {
    if i < j {
      OffsetNext(source, i);
      OffsetsIncrease(source, i + 1, j);
    }
  }

  // ---------------------------------------------------------------------
  // Properties of `assemble` as a whole

  /** `assemble` succeeds iff every target names a label defined somewhere
      in the source, before or after it; otherwise the label it reports is
      a target that nobody defines. */
  lemma AssembleSucceeds(source: seq<Insn>)
    ensures Assembled(source).Ok? <==>
      forall i :: 0 <= i < |source| && source[i].operand.Target? ==> Defines(source, source[i].operand.name)
    ensures Assembled(source).Err? ==>
      var name := Assembled(source).error.name;
      !Defines(source, name) && exists i :: 0 <= i < |source| && source[i].operand == Target(name)
  {
    var rs, labels := Relocations(source), Labels(source);
    PatchSpec(Emit(source), rs, labels);
    if Assembled(source).Ok? {
      forall i | 0 <= i < |source| && source[i].operand.Target?
        ensures Defines(source, source[i].operand.name)
      {
        TargetHasRelocation(source, i);
        LabelsDomain(source, source[i].operand.name);
      }
    } else {
      var name := Assembled(source).error.name;
      var k :| 0 <= k < |rs| && rs[k].name == name;
      RelocationFromTarget(source, k);
      LabelsDomain(source, name);
    }
  }

  /** A successful `assemble` lays the instructions out end to end: one
      byte per instruction plus one per operand, the discriminant at each
      instruction's start, an immediate truncated to a byte, and for a
      target the offset (mod 256) of the last definition of its label,
      whether that comes before or after the jump. */
  lemma AssembleLayout(source: seq<Insn>, i: nat)
    requires Assembled(source).Ok?
    requires i < |source|
    ensures var b := Assembled(source).value;
      && |b| == |source| + OperandCount(source)
      && Offset(source, i) + Size(source[i]) <= |b|
      && b[Offset(source, i)] == Code(source[i].opcode)
      && (source[i].operand.Value? ==> b[Offset(source, i) + 1] == source[i].operand.value % 0x100)
  {
    EmitLayout(source);
    EncodedLengthCount(source);
    PatchSpec(Emit(source), Relocations(source), Labels(source));
    RelocationsMissUntargeted(source, i);
  }

  /** A target operand is patched with the offset, truncated to a byte, of
      the last instruction carrying its label. */
  lemma AssembleTarget(source: seq<Insn>, i: nat, j: nat)
    requires Assembled(source).Ok?
    requires i < |source| && source[i].operand.Target?
    requires LastDefinition(source, source[i].operand.name, j)
    ensures Offset(source, i) + 1 < |Assembled(source).value|
    ensures Assembled(source).value[Offset(source, i) + 1] == Offset(source, j) % 0x100
  {
    var rs := Relocations(source);
    EmitLayout(source);
    PatchSpec(Emit(source), rs, Labels(source));
    TargetHasRelocation(source, i);
    LabelsLastWins(source, source[i].operand.name, j);
    var k :| 0 <= k < |rs| && rs[k] == Relocation(source[i].operand.name, Offset(source, i) + 1);
  }

  /** The relocation pass changes only reserved operand bytes: every other
      byte keeps its first-pass value and the length is unchanged. */
  lemma AssembleOnlyPatchesTargets(source: seq<Insn>)
    requires Assembled(source).Ok?
    ensures |Assembled(source).value| == |Emit(source)|
    ensures forall p :: 0 <= p < |Emit(source)| && Emit(source)[p] != Assembled(source).value[p] ==>
      exists i :: 0 <= i < |source| && source[i].operand.Target? && p == Offset(source, i) + 1
  {
    var rs := Relocations(source);
    PatchSpec(Emit(source), rs, Labels(source));
    forall p | 0 <= p < |Emit(source)| && Emit(source)[p] != Assembled(source).value[p]
      ensures exists i :: 0 <= i < |source| && source[i].operand.Target? && p == Offset(source, i) + 1
    {
      var k :| 0 <= k < |rs| && rs[k].offset == p;
      RelocationFromTarget(source, k);
    }
  }
}
