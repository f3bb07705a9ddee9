/** The kernel's instruction decoder (kernel/src/program/vm_app/validation.rs) inverts the
    assembler: what was assembled decodes to the source instructions, with jumps that land
    where their labels were declared. */
module Disassembly {
  import opened Wrappers
  import opened Bytes
  import opened Bytecode
  import opened Assembler

  /** The decoded form of a source instruction. */
  function MachineOf(s: Source, labels: map<string, nat>): Machine {
    match s
    case U128(v) => Machine(0x01, LittleEndian(v, 16))
    case Text(bytes) => Machine(0x10, bytes)
    case Owner(id) => Machine(0x11, [0] + id)
    case Jump(zero, target) =>
      Machine(if zero then 0x21 else 0x20, LittleEndian(if target in labels then labels[target] else 0, 4))
    case Plain(op) => Machine(op, [])
  }

  function Machines(src: seq<Source>, labels: map<string, nat>): (ms: seq<Machine>)
    ensures |ms| == |src| && forall i :: 0 <= i < |src| ==> ms[i] == MachineOf(src[i], labels)
  {
    if src == [] then [] else [MachineOf(src[0], labels)] + Machines(src[1..], labels)
  }

  predicate Encodable(s: Source) {
    IsSource(s) && (s.Text? ==> |s.bytes| <= MAX_DATA_BYTES)
  }

  predicate AllEncodable(src: seq<Source>) {
    forall i :: 0 <= i < |src| ==> Encodable(src[i])
  }

  lemma At(a: seq<Byte>, e: seq<Byte>, rest: seq<Byte>, i: nat, j: nat)
    requires i <= j <= |e|
    ensures (a + (e + rest))[|a| + i..|a| + j] == e[i..j]
    ensures i < |e| ==> (a + (e + rest))[|a| + i] == e[i]
  {
  }

  lemma TextLength(n: nat)
    requires n <= MAX_DATA_BYTES
    ensures FromLittleEndian(LittleEndian(n, 2)) == n
  {
    assert Pow256(2) == 256 * Pow256(1);
    LittleEndianRoundTrip(n, 2);
  }

  /** An instruction whose operand has a fixed length decodes wherever it stands. */
  lemma TakeFixed(a: seq<Byte>, op: Byte, operand: seq<Byte>, rest: seq<Byte>)
    requires op == 0x01 ==> |operand| == 16
    requires op == 0x11 ==> |operand| == 33 && operand[0] == 0
    requires op == 0x20 || op == 0x21 ==> |operand| == 4
    requires IsPlain(op) ==> operand == []
    requires op == 0x01 || op == 0x11 || op == 0x20 || op == 0x21 || IsPlain(op)
    ensures Take(a + (([op] + operand) + rest), |a|) == Some((Machine(op, operand), |a| + 1 + |operand|))
  {
    hide FromLittleEndian;
    var e := [op] + operand;
    var body := a + (e + rest);
    At(a, e, rest, 0, 0);
    At(a, e, rest, 1, |e|);
    if operand != [] {
      At(a, e, rest, 1, 1);
    }
    assert e[1..|e|] == operand;
    assert body[|a|] == op;
  }

  lemma TakeText(a: seq<Byte>, e: seq<Byte>, bytes: seq<Byte>, rest: seq<Byte>, body: seq<Byte>)
    requires |bytes| <= MAX_DATA_BYTES && |e| == 3 + |bytes| && e[0] == 0x10
    requires FromLittleEndian(e[1..3]) == |bytes| && e[3..] == bytes && body == a + (e + rest)
    ensures Take(body, |a|) == Some((Machine(0x10, bytes), |a| + 3 + |bytes|))
  {
    hide FromLittleEndian;
    At(a, e, rest, 0, 0);
    At(a, e, rest, 1, 3);
    At(a, e, rest, 3, |e|);
    assert e[3..|e|] == e[3..];
    assert body[|a|] == 0x10 && body[|a| + 1..|a| + 3] == e[1..3] && body[|a| + 3..|a| + 3 + |bytes|] == bytes;
    assert Operand(body, |a|) == Some((|a| + 3, |bytes|));
  }

  lemma TextParts(bytes: seq<Byte>)
    requires |bytes| <= MAX_DATA_BYTES
    ensures var e := [0x10] + LittleEndian(|bytes|, 2) + bytes;
            |e| == 3 + |bytes| && e[0] == 0x10 && FromLittleEndian(e[1..3]) == |bytes| && e[3..] == bytes
  {
    hide LittleEndian, FromLittleEndian;
    var e := [0x10] + LittleEndian(|bytes|, 2) + bytes;
    assert e[1..3] == LittleEndian(|bytes|, 2);
    TextLength(|bytes|);
  }

  /** The bytes of one instruction, wherever they stand, decode to it. */
  lemma TakeEncoded(a: seq<Byte>, s: Source, rest: seq<Byte>, labels: map<string, nat>)
    requires Encodable(s)
    ensures Take(a + (Encoded(s, labels) + rest), |a|) == Some((MachineOf(s, labels), |a| + Size(s)))
  {
    hide LittleEndian, Take, Pow256;
    match s
    case U128(v) => TakeFixed(a, 0x01, LittleEndian(v, 16), rest);
    case Text(bytes) =>
      TextParts(bytes);
      TakeText(a, Encoded(s, labels), bytes, rest, a + (Encoded(s, labels) + rest));
    case Owner(id) =>
      TakeFixed(a, 0x11, [0] + id, rest);
      assert [0x11, 0] + id == [0x11] + ([0] + id);
    case Jump(zero, target) =>
      TakeFixed(a, if zero then 0x21 else 0x20, LittleEndian(if target in labels then labels[target] else 0, 4), rest);
    case Plain(op) =>
      TakeFixed(a, op, [], rest);
      assert [op] + [] == [op];
  }

  lemma {:induction false} DecodeFlat(a: seq<Byte>, src: seq<Source>, labels: map<string, nat>)
    requires AllEncodable(src)
    ensures DecodeFrom(a + Flat(src, labels), |a|) == Some(Machines(src, labels))
    decreases src
  {
    hide Take, Encoded, Encodable, MachineOf, Size;
    if src == [] {
      assert a + Flat(src, labels) == a;
    } else {
      var e, rest := Encoded(src[0], labels), Flat(src[1..], labels);
      TakeEncoded(a, src[0], rest, labels);
      DecodeFlat(a + e, src[1..], labels);
      assert a + e + rest == a + (e + rest);
      DecodeStep(a + (e + rest), |a|);
    }
  }

  /** From the offset of any instruction, or the end, decoding yields the instructions from
      there on, whatever stands before them: offsets are boundaries. */
  lemma DecodeAtOffset(a: seq<Byte>, src: seq<Source>, k: nat, labels: map<string, nat>)
    requires AllEncodable(src) && k <= |src|
    ensures |a| + Offset(src[..k]) <= |a + Flat(src, labels)|
    ensures DecodeFrom(a + Flat(src, labels), |a| + Offset(src[..k])) == Some(Machines(src[k..], labels))
  {
    hide DecodeFrom, Flat, Offset, Machines, AllEncodable;
    var before, after := src[..k], src[k..];
    var front, back := Flat(before, labels), Flat(after, labels);
    assert src == before + after;
    EncodableFrom(src, k);
    FlatAppend(before, after, labels);
    FlatLength(before, labels);
    GroupLeft(a, front, back);
    DecodeFlat(a + front, after, labels);
  }

  lemma EncodableFrom(src: seq<Source>, k: nat)
    requires AllEncodable(src) && k <= |src|
    ensures AllEncodable(src[k..])
  {
    hide Encodable;
  }

  lemma Regroup(a: seq<Byte>, e: seq<Byte>, more: seq<Byte>, rest: seq<Byte>)
    ensures a + ((e + more) + rest) == a + (e + (more + rest)) == (a + e) + (more + rest)
  {
  }

  lemma Cons3(m: Machine, ms: seq<Machine>, tail: seq<Machine>)
    ensures [m] + (ms + tail) == ([m] + ms) + tail
  {
  }

  /** Decoding passes through a run of encoded instructions, whatever follows them. */
  lemma {:induction false} DecodeThrough(a: seq<Byte>, src: seq<Source>, rest: seq<Byte>, labels: map<string, nat>, body: seq<Byte>, tail: seq<Machine>)
    requires AllEncodable(src) && body == a + (Flat(src, labels) + rest)
    requires |a| + Offset(src) <= |body| && DecodeFrom(body, |a| + Offset(src)) == Some(tail)
    ensures DecodeFrom(body, |a|) == Some(Machines(src, labels) + tail)
    decreases src
  {
    hide Take, Encoded, Encodable, MachineOf, Size, DecodeFrom;
    if src == [] {
      assert Machines(src, labels) + tail == tail;
    } else {
      var e, more := Encoded(src[0], labels), Flat(src[1..], labels);
      Regroup(a, e, more, rest);
      TakeEncoded(a, src[0], more + rest, labels);
      DecodeThrough(a + e, src[1..], rest, labels, body, tail);
      DecodeStep(body, |a|);
      Cons3(MachineOf(src[0], labels), Machines(src[1..], labels), tail);
    }
  }

  /** Patching the operand of jump `k` changes that instruction and no other. */
  lemma PatchChangesOne(src: seq<Source>, k: nat, labels: map<string, nat>, operand: seq<Byte>)
    requires AllEncodable(src) && k < |src| && src[k].Jump? && |operand| == 4
    ensures Offset(src[..k]) + 5 <= |Flat(src, labels)|
    ensures DecodeFrom(Patch(Flat(src, labels), Offset(src[..k]) + 1, operand), 0) ==
            Some(Machines(src, labels)[k := Machine(MachineOf(src[k], labels).op, operand)])
  {
    hide Take, Flat, Offset, AllEncodable, LittleEndian, Patch, DecodeFrom, Machines, MachineOf;
    var op := MachineOf(src[k], labels).op;
    var front, back := Flat(src[..k], labels), Flat(src[k + 1..], labels);
    var m, ms := Machine(op, operand), Machines(src[k + 1..], labels);
    FlatLength(src[..k], labels);
    JumpSplits(src, k, labels, operand);
    EncodableParts(src, k, labels);
    var body := front + (([op] + operand) + back);
    TakeFixed(front, op, operand, back);
    DecodeFlat(front + ([op] + operand), src[k + 1..], labels);
    GroupLeft(front, [op] + operand, back);
    DecodeStep(body, |front|);
    GroupNone(front, ([op] + operand) + back);
    DecodeThrough([], src[..k], ([op] + operand) + back, labels, body, [m] + ms);
    MachinesSplit(src, k, labels, m);
  }

  lemma GroupLeft(a: seq<Byte>, b: seq<Byte>, c: seq<Byte>)
    ensures (a + b) + c == a + (b + c)
  {
  }

  lemma GroupNone(a: seq<Byte>, b: seq<Byte>)
    ensures [] + (a + b) == a + b
  {
  }

  lemma EncodableParts(src: seq<Source>, k: nat, labels: map<string, nat>)
    requires AllEncodable(src) && k < |src| && src[k].Jump?
    ensures AllEncodable(src[..k]) && AllEncodable(src[k + 1..])
    ensures MachineOf(src[k], labels).op == 0x20 || MachineOf(src[k], labels).op == 0x21
  {
    hide Encodable;
  }

  lemma MachinesSplit(src: seq<Source>, k: nat, labels: map<string, nat>, m: Machine)
    requires k < |src|
    ensures Machines(src, labels)[k := m] == Machines(src[..k], labels) + ([m] + Machines(src[k + 1..], labels))
  {
    hide MachineOf;
  }

  lemma JumpSplits(src: seq<Source>, k: nat, labels: map<string, nat>, operand: seq<Byte>)
    requires k < |src| && src[k].Jump? && |operand| == 4
    ensures var op := MachineOf(src[k], labels).op;
            && Offset(src[..k]) + 5 <= |Flat(src, labels)|
            && Patch(Flat(src, labels), Offset(src[..k]) + 1, operand) ==
               Flat(src[..k], labels) + (([op] + operand) + Flat(src[k + 1..], labels))
  {
    hide Offset, LittleEndian;
    var front, back := Flat(src[..k], labels), Flat(src[k + 1..], labels);
    var e := Encoded(src[k], labels);
    FlatLength(src[..k], labels);
    assert src == src[..k] + src[k..] && src[k..][0] == src[k] && src[k..][1..] == src[k + 1..];
    FlatAppend(src[..k], src[k..], labels);
    assert Flat(src, labels) == front + (e + back);
    PatchMiddle(front, e, back, operand);
  }

  lemma PatchMiddle(front: seq<Byte>, e: seq<Byte>, back: seq<Byte>, operand: seq<Byte>)
    requires |e| == 5 && |operand| == 4
    ensures Patch(front + (e + back), |front| + 1, operand) == front + (([e[0]] + operand) + back)
  {
    var body := front + (e + back);
    assert body[..|front| + 1] == front + [e[0]];
    assert body[|front| + 5..] == back;
    assert front + [e[0]] + operand + back == front + (([e[0]] + operand) + back);
  }

  /** What the lines up to `i` hold is a prefix of what all lines hold. */
  lemma {:induction false} InstructionsPrefix(lines: seq<Line>, i: nat)
    requires i <= |lines|
    ensures var k := |Instructions(lines[..i])|;
            k <= |Instructions(lines)| && Instructions(lines)[..k] == Instructions(lines[..i])
    decreases |lines|
  {
    if i < |lines| {
      var before := lines[..|lines| - 1];
      InstructionsPrefix(before, i);
      assert before[..i] == lines[..i];
    } else {
      assert lines[..i] == lines;
    }
  }

  /** A label's offset is where it was declared. */
  lemma {:induction false} LabelDeclared(lines: seq<Line>, i: nat)
    requires Accepted(lines) && i < |lines| && lines[i].Label?
    ensures lines[i].name in Labels(lines) && Labels(lines)[lines[i].name] == Offset(Instructions(lines[..i]))
    decreases |lines|
  {
    hide Offset, Instructions;
    if i < |lines| - 1 {
      var before := lines[..|lines| - 1];
      LabelDeclared(before, i);
      assert before[..i] == lines[..i] && before[i] == lines[i];
    }
  }

  lemma {:induction false} LabelExists(lines: seq<Line>, name: string) returns (i: nat)
    requires name in Labels(lines)
    ensures i < |lines| && lines[i] == Label(name)
    decreases |lines|
  {
    hide Offset, Instructions;
    if lines[|lines| - 1] == Label(name) {
      i := |lines| - 1;
    } else {
      i := LabelExists(lines[..|lines| - 1], name);
    }
  }

  lemma {:induction false} AcceptedEncodable(lines: seq<Line>)
    requires Accepted(lines) && IsProgram(lines)
    ensures AllEncodable(Instructions(lines)) && Offset(Instructions(lines)) <= MAX_CODE_BYTES
    decreases |lines|
  {
    hide IsSource, Offset;
    if lines == [] {
      OffsetNothing();
    } else {
      var before, last := lines[..|lines| - 1], lines[|lines| - 1];
      assert IsProgram(before) by {
        assert forall i :: 0 <= i < |before| ==> before[i] == lines[i];
      }
      AcceptedEncodable(before);
      if !last.Code? {
        assert Instructions(before) + [] == Instructions(before);
      }
    }
  }

  lemma OffsetNothing()
    ensures Offset([]) == 0
  {
  }

  /** The round trip. An accepted program's code decodes to exactly its instructions. */
  lemma RoundTrip(lines: seq<Line>)
    requires IsProgram(lines) && Accepted(lines)
    ensures |Image(lines)| >= HEADER
    ensures DecodeFrom(Image(lines), HEADER) == Some(Machines(Instructions(lines), Labels(lines)))
  {
    hide IsProgram, Accepted, Instructions, Labels, Flat, DecodeFrom, Machines, StackOf, PagesOf;
    AcceptedEncodable(lines);
    DecodeFlat(Header(StackOf(lines), PagesOf(lines)), Instructions(lines), Labels(lines));
  }

  /** A label stands at the offset of some instruction, or at the end. */
  lemma LabelAt(lines: seq<Line>, name: string) returns (i: nat)
    requires Accepted(lines) && name in Labels(lines)
    ensures i < |lines| && lines[i] == Label(name)
    ensures var src, j := Instructions(lines), |Instructions(lines[..i])|;
            && j <= |src| && src[..j] == Instructions(lines[..i]) && Labels(lines)[name] == Offset(src[..j])
  {
    hide Accepted, Instructions, Labels, Offset;
    i := LabelExists(lines, name);
    LabelDeclared(lines, i);
    InstructionsPrefix(lines, i);
  }

  lemma {:induction false} OffsetBefore(src: seq<Source>, k: nat)
    requires k < |src|
    ensures Offset(src[..k]) < Offset(src)
  {
    if k > 0 {
      OffsetBefore(src[1..], k - 1);
      assert src[..k][1..] == src[1..][..k - 1];
    }
  }

  predicate AreOffsets(starts: seq<nat>, at: nat, src: seq<Source>) {
    |starts| == |src| && forall k :: 0 <= k < |src| ==> starts[k] == at + Offset(src[..k])
  }

  /** The decoder's boundaries are the offsets of the instructions. */
  lemma {:induction false} StartsFlat(a: seq<Byte>, src: seq<Source>, labels: map<string, nat>)
    requires AllEncodable(src)
    ensures AreOffsets(Starts(a + Flat(src, labels), |a|), |a|, src)
    decreases src
  {
    hide Take, Encoded, Encodable, Size, Starts, DecodeFrom, MachineOf, AreOffsets, Flat, Offset;
    if src == [] {
      NoStarts(a, labels);
    } else {
      var e, rest := Encoded(src[0], labels), Flat(src[1..], labels);
      FlatCons(src, labels);
      TakeEncoded(a, src[0], rest, labels);
      StartsFlat(a + e, src[1..], labels);
      GroupLeft(a, e, rest);
      DecodeStep(a + (e + rest), |a|);
      OneMoreStart(|a|, src, Starts(a + (e + rest), |a| + |e|));
    }
  }

  lemma NoStarts(a: seq<Byte>, labels: map<string, nat>)
    ensures AreOffsets(Starts(a + Flat([], labels), |a|), |a|, [])
  {
    assert a + Flat([], labels) == a;
  }

  lemma FlatCons(src: seq<Source>, labels: map<string, nat>)
    requires src != []
    ensures Flat(src, labels) == Encoded(src[0], labels) + Flat(src[1..], labels)
  {
  }

  lemma OneMoreStart(at: nat, src: seq<Source>, tail: seq<nat>)
    requires src != [] && AreOffsets(tail, at + Size(src[0]), src[1..])
    ensures AreOffsets([at] + tail, at, src)
  {
    hide Offset, Size;
    forall k | 0 <= k < |src| ensures ([at] + tail)[k] == at + Offset(src[..k]) {
      OffsetAt(src, k);
    }
  }

  lemma OffsetAt(src: seq<Source>, k: nat)
    requires k < |src|
    ensures Offset(src[..k]) == if k == 0 then 0 else Size(src[0]) + Offset(src[1..][..k - 1])
  {
    if k > 0 {
      assert src[..k][1..] == src[1..][..k - 1];
    }
  }

  /** A boundary test on a label's offset: is it before the end? */
  lemma StartIffBeforeEnd(a: seq<Byte>, lines: seq<Line>, name: string)
    requires IsProgram(lines) && Accepted(lines) && name in Labels(lines)
    ensures var src := Instructions(lines);
            |a| + Labels(lines)[name] in Starts(a + Flat(src, Labels(lines)), |a|) <==> Labels(lines)[name] < Offset(src)
  {
    hide Accepted, IsProgram, Instructions, Labels, Flat, Offset, Starts;
    var src, labels := Instructions(lines), Labels(lines);
    var i := LabelAt(lines, name);
    var j := |Instructions(lines[..i])|;
    AcceptedEncodable(lines);
    StartsFlat(a, src, labels);
    var starts := Starts(a + Flat(src, labels), |a|);
    forall k | 0 <= k < |src| ensures starts[k] < |a| + Offset(src) {
      OffsetBefore(src, k);
    }
    if j < |src| {
      assert starts[j] == |a| + labels[name];
    } else {
      assert src[..j] == src;
    }
  }

  /** What the kernel asks of a program, said of its source: at most 4096 instructions, one of
      them a return; limits in range; and no jump to a label at the very end. */
  predicate Runnable(lines: seq<Line>) {
    var src, labels := Instructions(lines), Labels(lines);
    && |src| <= MAX_INSTRUCTIONS && Plain(0x03) in src
    && 1 <= StackOf(lines) <= MAX_STACK_ITEMS && 1 <= PagesOf(lines) <= MAX_MEMORY_PAGES
    && forall k :: 0 <= k < |src| && src[k].Jump? && src[k].target in labels ==> labels[src[k].target] < Offset(src)
  }

  lemma {:induction false} LimitsFit(lines: seq<Line>)
    requires IsProgram(lines)
    ensures StackOf(lines) < 0x1_0000 && PagesOf(lines) < 0x1_0000
  {
    if lines != [] {
      LimitsFit(lines[..|lines| - 1]);
    }
  }

  lemma HeaderReads(stack: nat, pages: nat, body: seq<Byte>)
    requires stack < 0x1_0000 && pages < 0x1_0000
    ensures var code := Header(stack, pages) + body;
            && |Header(stack, pages)| == HEADER
            && (HeaderFits(code) <==> 1 <= stack <= MAX_STACK_ITEMS && 1 <= pages <= MAX_MEMORY_PAGES)
  {
    hide LittleEndian, FromLittleEndian;
    var code := Header(stack, pages) + body;
    assert Pow256(1) == 256 && Pow256(2) == 256 * Pow256(1) && Pow256(4) > 0;
    LittleEndianRoundTrip(stack, 2);
    LittleEndianRoundTrip(pages, 2);
    LittleEndianRoundTrip(0, 4);
    assert code[..4] == [0x58, 0x50, 0x56, 0x4d] && code[4] == 4;
    assert code[5..7] == LittleEndian(stack, 2);
    assert code[7..9] == LittleEndian(pages, 2);
    assert code[9..13] == LittleEndian(0, 4);
  }

  lemma ReturnsIff(src: seq<Source>, labels: map<string, nat>)
    requires AllEncodable(src)
    ensures Returns(Machines(src, labels)) <==> Plain(0x03) in src
  {
    hide LittleEndian;
    var ms := Machines(src, labels);
    forall k | 0 <= k < |src| ensures ms[k].op == 0x03 <==> src[k] == Plain(0x03) {
      assert Encodable(src[k]);
    }
  }

  /** The kernel's jump test on instruction `k`. */
  lemma LandsIff(a: seq<Byte>, lines: seq<Line>, k: nat)
    requires |a| == HEADER && IsProgram(lines) && Accepted(lines) && Resolved(Instructions(lines), Labels(lines))
    requires k < |Instructions(lines)|
    ensures var src, labels := Instructions(lines), Labels(lines);
            Lands(Machines(src, labels)[k], Starts(a + Flat(src, labels), |a|)) <==> (src[k].Jump? ==> labels[src[k].target] < Offset(src))
  {
    hide Accepted, IsProgram, Instructions, Labels, Flat, Offset, Starts, LittleEndian, FromLittleEndian;
    var src, labels := Instructions(lines), Labels(lines);
    AcceptedEncodable(lines);
    assert Encodable(src[k]);
    if src[k].Jump? {
      StartIffBeforeEnd(a, lines, src[k].target);
      OperandReads(lines, src[k].target);
    }
  }

  lemma OperandReads(lines: seq<Line>, name: string)
    requires IsProgram(lines) && Accepted(lines) && name in Labels(lines)
    ensures FromLittleEndian(LittleEndian(Labels(lines)[name], 4)) == Labels(lines)[name]
  {
    hide Accepted, IsProgram, Instructions, Labels, Offset;
    var i := LabelAt(lines, name);
    var src, j := Instructions(lines), |Instructions(lines[..i])|;
    AcceptedEncodable(lines);
    if j < |src| {
      OffsetBefore(src, j);
    } else {
      assert src[..j] == src;
    }
    FitsOperand();
    LittleEndianRoundTrip(Labels(lines)[name], 4);
  }

  /** Validation, exactly: an accepted program with all labels declared assembles to code the
      kernel accepts if and only if it is runnable. */
  lemma ValidatesIff(lines: seq<Line>)
    requires IsProgram(lines) && Accepted(lines) && Resolved(Instructions(lines), Labels(lines))
    ensures Validates(Image(lines)) <==> Runnable(lines)
  {
    hide Accepted, IsProgram, Instructions, Labels, Flat, Offset, Starts, DecodeFrom, Machines, Lands, Returns, HeaderFits, Header;
    var src, labels := Instructions(lines), Labels(lines);
    var a := Header(StackOf(lines), PagesOf(lines));
    LimitsFit(lines);
    HeaderReads(StackOf(lines), PagesOf(lines), Flat(src, labels));
    AcceptedEncodable(lines);
    AcceptedFits(lines);
    FlatLength(src, labels);
    DecodeFlat(a, src, labels);
    ReturnsIff(src, labels);
    NotEmpty(src);
    forall k | 0 <= k < |src|
      ensures Lands(Machines(src, labels)[k], Starts(a + Flat(src, labels), |a|)) <==> (src[k].Jump? ==> labels[src[k].target] < Offset(src))
    {
      LandsIff(a, lines, k);
    }
  }

  lemma NotEmpty(src: seq<Source>)
    ensures Plain(0x03) in src ==> Offset(src) > 0
  {
  }

  lemma {:induction false} AcceptedFits(lines: seq<Line>)
    requires Accepted(lines)
    ensures Offset(Instructions(lines)) + HEADER <= MAX_CODE_BYTES
  {
    hide Offset;
    if lines == [] {
      OffsetNothing();
    } else {
      var before, last := lines[..|lines| - 1], lines[|lines| - 1];
      AcceptedFits(before);
      if !last.Code? {
        assert Instructions(before) + [] == Instructions(before);
      }
    }
  }

  /** Byte `at` of the code is where instruction `j` starts: decoding from there yields it and the rest. */
  predicate IsBoundary(lines: seq<Line>, j: nat, at: nat)
    requires j < |Instructions(lines)|
  {
    var src, labels := Instructions(lines), Labels(lines);
    && at == HEADER + Offset(src[..j]) && at < |Image(lines)|
    && DecodeFrom(Image(lines), at) == Some([MachineOf(src[j], labels)] + Machines(src[j + 1..], labels))
  }

  /** A jump of validated code lands on the instruction that follows its label's declaration. */
  lemma JumpLands(lines: seq<Line>, k: nat) returns (i: nat)
    requires IsProgram(lines) && Accepted(lines) && Resolved(Instructions(lines), Labels(lines))
    requires Validates(Image(lines))
    requires k < |Instructions(lines)| && Instructions(lines)[k].Jump?
    ensures i < |lines| && lines[i] == Label(Instructions(lines)[k].target)
    ensures var src, labels := Instructions(lines), Labels(lines);
            var operand := FromLittleEndian(Machines(src, labels)[k].immediate);
            var j := |Instructions(lines[..i])|;
            && j < |src| && src[..j] == Instructions(lines[..i]) && IsBoundary(lines, j, HEADER + operand)
  {
    hide Accepted, IsProgram, Instructions, Labels, Flat, Offset, DecodeFrom, Validates, Machines, LittleEndian, FromLittleEndian, Image, IsBoundary;
    var src, labels := Instructions(lines), Labels(lines);
    ValidatesIff(lines);
    i := LabelAt(lines, src[k].target);
    OperandReads(lines, src[k].target);
    var j := |Instructions(lines[..i])|;
    BeforeEnd(src, j);
    BoundaryAt(lines, j);
  }

  /** Every instruction of an accepted program starts a boundary of its code. */
  lemma BoundaryAt(lines: seq<Line>, j: nat)
    requires IsProgram(lines) && Accepted(lines) && j < |Instructions(lines)|
    ensures IsBoundary(lines, j, HEADER + Offset(Instructions(lines)[..j]))
  {
    hide Accepted, IsProgram, Instructions, Labels, Flat, Offset, DecodeFrom, Machines, StackOf, PagesOf, AllEncodable, MachineOf, LittleEndian;
    var src, labels := Instructions(lines), Labels(lines);
    var a := Header(StackOf(lines), PagesOf(lines));
    AcceptedEncodable(lines);
    DecodeAtOffset(a, src, j, labels);
    FlatLength(src, labels);
    OffsetBefore(src, j);
    MachinesFrom(src, j, labels);
  }

  lemma BeforeEnd(src: seq<Source>, j: nat)
    requires j <= |src| && Offset(src[..j]) < Offset(src)
    ensures j < |src|
  {
    assert src[..|src|] == src;
  }

  lemma MachinesFrom(src: seq<Source>, j: nat, labels: map<string, nat>)
    requires j < |src|
    ensures Machines(src[j..], labels) == [MachineOf(src[j], labels)] + Machines(src[j + 1..], labels)
  {
    assert src[j..][0] == src[j] && src[j..][1..] == src[j + 1..];
  }

  lemma FitsOperand()
    ensures MAX_CODE_BYTES < Pow256(4)
  {
    assert Pow256(3) == 256 * Pow256(2);
    assert Pow256(1) == 256;
  }
}
