/** `pretty_print` of src/asm.rs: a textual rendering of a symbolic program,
    one line per instruction. It is presentational only; nothing parses it
    back. */
module Listing {
  import opened Results
  import opened Bytecode
  import opened Assembler

  function Digit(d: nat): (c: char)
    requires d < 10
    ensures '0' <= c <= '9' && c as int - '0' as int == d
  {
    ('0' as int + d) as char
  }

  /** A number in decimal, as `{}` formats it: at least one digit and no
      leading zero. */
  function Decimal(n: nat): (s: string)
    ensures |s| >= 1
    ensures forall i :: 0 <= i < |s| ==> '0' <= s[i] <= '9'
    ensures s[0] == '0' ==> s == "0"
    decreases n
  {
    if n < 10 then [Digit(n)] else Decimal(n / 10) + [Digit(n % 10)]
  }

  /** The number a string of decimal digits denotes. */
  function DigitsValue(s: string): nat
    requires forall i :: 0 <= i < |s| ==> '0' <= s[i] <= '9'
  {
    if s == [] then 0
    else DigitsValue(s[..|s| - 1]) * 10 + (s[|s| - 1] as int - '0' as int)
  }

  /** Reading the decimal text back gives the number: the rendering loses
      nothing. */
  lemma {:induction false} DecimalRoundTrip(n: nat)
    ensures DigitsValue(Decimal(n)) == n
    decreases n
  {
    if n >= 10 {
      DecimalRoundTrip(n / 10);
      var s := Decimal(n);
      assert s[..|s| - 1] == Decimal(n / 10);
    }
  }

  /** The text of an operand, including its leading blank. */
  function OperandText(operand: Operand): string {
    match operand
    case NoOperand => ""
    case Target(name) => " " + name
    case Value(v) => " " + Decimal(v)
  }

  /** The text before the opcode's name: `label:` and a tab, or a tab. */
  function LabelText(tag: Option<string>): string {
    match tag
    case Some(name) => name + ":\t"
    case None => "\t"
  }

  /** One line: `label:` and a tab, or just a tab; the opcode's name; the
      operand; a newline. */
  function Line(insn: Insn): string {
    LabelText(insn.labelName) + Name(insn.opcode) + OperandText(insn.operand) + "\n"
  }

  /** The texts `text` gives for the instructions, one after another. */
  function Joined(source: seq<Insn>, text: Insn -> string): string {
    if source == [] then ""
    else Joined(source[..|source| - 1], text) + text(source[|source| - 1])
  }

  /** The whole listing: the lines of the instructions in order. */
  function Render(source: seq<Insn>): string {
    Joined(source, Line)
  }

  /** `pretty_print`: append each instruction's line to the output. The
      source's `Result` is always `Ok`, so the model returns the text. */
  method PrettyPrint(source: seq<Insn>) returns (output: string)
    ensures output == Render(source)
  {
    output := "";
    for i := 0 to |source|
      invariant output == Render(source[..i])
    {
      var insn := source[i];
      ghost var before := output;
      match insn.labelName {
        case Some(name) => output := output + (name + ":\t");
        case None => output := output + "\t";
      }
      output := output + Name(insn.opcode);
      match insn.operand {
        case NoOperand =>
        case Target(name) => output := output + (" " + name);
        case Value(n) => output := output + (" " + Decimal(n));
      }
      output := output + "\n";
      Associate(before, LabelText(insn.labelName), Name(insn.opcode), OperandText(insn.operand), "\n");
      RenderPrefix(source, i);
    }
    assert source[..|source|] == source;
  }

  lemma Associate(a: string, b: string, c: string, d: string, e: string)
    ensures a + b + c + d + e == a + (b + c + d + e)
  {
  }

  // ---------------------------------------------------------------------
  // Properties of the listing

  lemma {:induction false} JoinedAppend(a: seq<Insn>, b: seq<Insn>, text: Insn -> string)
    ensures Joined(a + b, text) == Joined(a, text) + Joined(b, text)
    decreases |b|
  {
    if b == [] {
      assert a + b == a;
    } else {
      var b' := b[..|b| - 1];
      assert (a + b)[..|a + b| - 1] == a + b';
      assert (a + b)[|a + b| - 1] == b[|b| - 1];
      JoinedAppend(a, b', text);
    }
  }

  /** Rendering distributes over concatenation: the order of instructions is
      the order of lines. */
  lemma RenderAppend(a: seq<Insn>, b: seq<Insn>)
    ensures Render(a + b) == Render(a) + Render(b)
  {
    JoinedAppend(a, b, Line);
  }

  /** Adding an instruction adds its line. */
  lemma RenderSnoc(source: seq<Insn>, insn: Insn)
    ensures Render(source + [insn]) == Render(source) + Line(insn)
  {
    assert (source + [insn])[..|source|] == source;
  }

  /** The listing of a longer prefix has one more line. */
  lemma RenderPrefix(source: seq<Insn>, i: nat)
    requires i < |source|
    ensures Render(source[..i + 1]) == Render(source[..i]) + Line(source[i])
  {
    assert source[..i + 1] == source[..i] + [source[i]];
    RenderSnoc(source[..i], source[i]);
  }

  /** Instruction `i`'s line sits between the lines of the instructions
      before it and those after it. */
  lemma RenderAt(source: seq<Insn>, i: nat)
    requires i < |source|
    ensures Render(source) == Render(source[..i]) + Line(source[i]) + Render(source[i + 1..])
  {
    assert source == source[..i] + [source[i]] + source[i + 1..];
    RenderAppend(source[..i] + [source[i]], source[i + 1..]);
    RenderSnoc(source[..i], source[i]);
  }

  /** The number of newline characters in a string. */
  function Newlines(s: string): nat {
    if s == [] then 0
    else Newlines(s[..|s| - 1]) + (if s[|s| - 1] == '\n' then 1 else 0)
  }

  predicate NoNewline(s: string) {
    forall i :: 0 <= i < |s| ==> s[i] != '\n'
  }

  lemma {:induction false} NewlinesAppend(a: string, b: string)
    ensures Newlines(a + b) == Newlines(a) + Newlines(b)
    decreases |b|
  {
    if b == [] {
      assert a + b == a;
    } else {
      var b' := b[..|b| - 1];
      assert (a + b)[..|a + b| - 1] == a + b';
      assert (a + b)[|a + b| - 1] == b[|b| - 1];
      NewlinesAppend(a, b');
    }
  }

  lemma {:induction false} NoNewlineCount(s: string)
    requires NoNewline(s)
    ensures Newlines(s) == 0
    decreases |s|
  {
    if s != [] {
      NoNewlineCount(s[..|s| - 1]);
    }
  }

  /** Neither the instruction's label nor its target contains a newline. */
  predicate PlainNames(insn: Insn) {
    && (insn.labelName.Some? ==> NoNewline(insn.labelName.value))
    && (insn.operand.Target? ==> NoNewline(insn.operand.name))
  }

  /** Each line ends in the only newline it contains. */
  lemma LineNewlines(insn: Insn)
    requires PlainNames(insn)
    ensures Line(insn)[|Line(insn)| - 1] == '\n'
    ensures Newlines(Line(insn)) == 1
  {
    var body := Line(insn)[..|Line(insn)| - 1];
    assert NoNewline(body);
    NoNewlineCount(body);
  }

  /** A listing of instructions whose names contain no newline has exactly
      one line per instruction. */
  lemma {:induction false} RenderLineCount(source: seq<Insn>)
    requires forall i :: 0 <= i < |source| ==> PlainNames(source[i])
    ensures Newlines(Render(source)) == |source|
    decreases |source|
  {
    if source != [] {
      var prefix, last := source[..|source| - 1], source[|source| - 1];
      assert Render(source) == Render(prefix) + Line(last);
      RenderLineCount(prefix);
      LineNewlines(last);
      NewlinesAppend(Render(prefix), Line(last));
    }
  }
}
