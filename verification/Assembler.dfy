/** The two-pass XPVM assembler (devkit/assembler/lib.rs) over already lexed lines. */
module Assembler {
  import opened Wrappers
  import opened Bytes
  import opened Bytecode

  // ----- source -----

  datatype Source =
    | U128(value: nat)
    | Text(bytes: seq<Byte>)
    | Owner(id: seq<Byte>)
    | Jump(zero: bool, target: string)
    | Plain(op: Byte)

  datatype Line =
    | Label(name: string)
    | Version
    | Stack(limit: nat)
    | Memory(pages: nat)
    | Code(ins: Source)

  /** The opcodes of the instructions without an operand, in the order of the assembler's table. */
  const MNEMONIC_OPCODES: seq<Byte> := [
    0x00, 0x02, 0x03, 0x04, 0x05, 0x12, 0x13, 0x14, 0x15, 0x16, 0x17, 0x18, 0x19,
    0x22, 0x23, 0x24, 0x25, 0x26, 0x27, 0x28, 0x29, 0x2a, 0x2b, 0x30, 0x31, 0x32, 0x33, 0x34, 0x35, 0x36, 0x37,
    0x40, 0x41, 0x42, 0x43, 0x44, 0x45, 0x46, 0x47, 0x48, 0x49, 0x4a, 0x4b, 0x4c
  ]

  /** The assembler has an instruction for exactly the plain opcodes that validation accepts. */
  lemma MnemonicsArePlain(op: Byte)
    ensures op in MNEMONIC_OPCODES <==> IsPlain(op)
  {
    assert IsPlain(op) ==> op in MNEMONIC_OPCODES;
  }

  /** What lexing guarantees of an instruction. */
  predicate IsSource(s: Source) {
    match s
    case U128(v) => v < Pow256(16)
    case Text(_) => true
    case Owner(id) => |id| == 32
    case Jump(_, _) => true
    case Plain(op) => IsPlain(op)
  }

  /** What lexing guarantees of a line: header limits are 16-bit numbers. */
  predicate IsLine(line: Line) {
    match line
    case Stack(limit) => limit < 0x1_0000
    case Memory(pages) => pages < 0x1_0000
    case Code(ins) => IsSource(ins)
    case _ => true
  }

  predicate IsProgram(lines: seq<Line>) {
    forall i :: 0 <= i < |lines| ==> IsLine(lines[i])
  }

  // ----- encoding -----

  function Size(s: Source): (n: nat)
    ensures n > 0
  {
    match s
    case U128(_) => 17
    case Text(bytes) => 3 + |bytes|
    case Owner(id) => 2 + |id|
    case Jump(_, _) => 5
    case Plain(_) => 1
  }

  /** An instruction's bytes; a jump to a label without an offset has a zero operand. */
  function Encoded(s: Source, labels: map<string, nat>): (e: seq<Byte>)
    ensures |e| == Size(s)
  {
    match s
    case U128(v) => [0x01] + LittleEndian(v, 16)
    case Text(bytes) => [0x10] + LittleEndian(|bytes|, 2) + bytes
    case Owner(id) => [0x11, 0] + id
    case Jump(zero, target) =>
      [if zero then 0x21 else 0x20] + LittleEndian(if target in labels then labels[target] else 0, 4)
    case Plain(op) => [op]
  }

  function Flat(src: seq<Source>, labels: map<string, nat>): seq<Byte> {
    if src == [] then [] else Encoded(src[0], labels) + Flat(src[1..], labels)
  }

  function Offset(src: seq<Source>): nat {
    if src == [] then 0 else Size(src[0]) + Offset(src[1..])
  }

  lemma {:induction false} FlatAppend(a: seq<Source>, b: seq<Source>, labels: map<string, nat>)
    ensures Flat(a + b, labels) == Flat(a, labels) + Flat(b, labels)
  {
    hide Encoded;
    if a == [] {
      assert a + b == b;
    } else {
      FlatAppend(a[1..], b, labels);
      var e, f, g := Encoded(a[0], labels), Flat(a[1..], labels), Flat(b, labels);
      assert (a + b)[0] == a[0] && (a + b)[1..] == a[1..] + b;
      assert e + (f + g) == (e + f) + g;
    }
  }

  lemma {:induction false} FlatLength(src: seq<Source>, labels: map<string, nat>)
    ensures |Flat(src, labels)| == Offset(src)
  {
    if src != [] {
      FlatLength(src[1..], labels);
    }
  }

  lemma FlatSnoc(src: seq<Source>, s: Source, labels: map<string, nat>)
    ensures Flat(src + [s], labels) == Flat(src, labels) + Encoded(s, labels)
    ensures Offset(src + [s]) == Offset(src) + Size(s)
  {
    FlatAppend(src, [s], labels);
    FlatLength(src, labels);
    FlatLength(src + [s], labels);
    assert [s][1..] == [];
  }

  // ----- what the lines say -----

  function Instructions(lines: seq<Line>): seq<Source> {
    if lines == [] then []
    else
      var last := lines[|lines| - 1];
      Instructions(lines[..|lines| - 1]) + if last.Code? then [last.ins] else []
  }

  /** Each label with the offset of the instruction that follows its declaration. */
  function Labels(lines: seq<Line>): map<string, nat> {
    if lines == [] then map[]
    else
      var before, last := lines[..|lines| - 1], lines[|lines| - 1];
      if last.Label? then Labels(before)[last.name := Offset(Instructions(before))] else Labels(before)
  }

  function StackOf(lines: seq<Line>): nat {
    if lines == [] then 64
    else if lines[|lines| - 1].Stack? then lines[|lines| - 1].limit else StackOf(lines[..|lines| - 1])
  }

  function PagesOf(lines: seq<Line>): nat {
    if lines == [] then 1
    else if lines[|lines| - 1].Memory? then lines[|lines| - 1].pages else PagesOf(lines[..|lines| - 1])
  }

  /** The first pass accepts these lines. */
  predicate Accepted(lines: seq<Line>) {
    lines == [] ||
    var before, last := lines[..|lines| - 1], lines[|lines| - 1];
    && Accepted(before)
    && match last
       case Label(name) => name !in Labels(before)
       case Code(s) =>
         && (s.Text? ==> |s.bytes| <= MAX_DATA_BYTES)
         && Offset(Instructions(before) + [s]) + HEADER <= MAX_CODE_BYTES
       case _ => Instructions(before) == []
  }

  predicate Resolved(src: seq<Source>, labels: map<string, nat>) {
    forall i :: 0 <= i < |src| && src[i].Jump? ==> src[i].target in labels
  }

  function Header(stack: nat, pages: nat): seq<Byte> {
    [0x58, 0x50, 0x56, 0x4d, 4] + LittleEndian(stack, 2) + LittleEndian(pages, 2) + LittleEndian(0, 4)
  }

  /** The code these lines stand for. */
  function Image(lines: seq<Line>): seq<Byte> {
    Header(StackOf(lines), PagesOf(lines)) + Flat(Instructions(lines), Labels(lines))
  }

  // ----- the two passes -----

  /** A jump operand to patch: its position in the body and its label. */
  function Fixups(src: seq<Source>): seq<(nat, string)> {
    if src == [] then []
    else
      var before, last := src[..|src| - 1], src[|src| - 1];
      Fixups(before) + if last.Jump? then [(Offset(before) + 1, last.target)] else []
  }

  function Patch(body: seq<Byte>, at: nat, bytes: seq<Byte>): seq<Byte>
    requires at + |bytes| <= |body|
  {
    body[..at] + bytes + body[at + |bytes|..]
  }

  /** `assemble`, its lines already lexed. */
  method Assemble(lines: seq<Line>) returns (o: Result<seq<Byte>>)
    requires IsProgram(lines)
    ensures o.Success? <==> Accepted(lines) && Resolved(Instructions(lines), Labels(lines)) && Validates(Image(lines))
    ensures o.Success? ==> o.value == Image(lines)
  {
    hide Accepted, Instructions, Labels, Flat, Offset, Fixups, Encoded, Header, StackOf, PagesOf, Resolved, Validates;
    var body: seq<Byte>, jumps: seq<(nat, string)>, labels: map<string, nat>, stack: nat, pages: nat, started :=
      [], [], map[], 64, 1, false;
    assert lines[..0] == [];
    NothingYet();
    for i := 0 to |lines|
      invariant Accepted(lines[..i])
      invariant Progress(lines[..i], body, jumps, labels, stack, pages, started)
    {
      var line := lines[i];
      LineAdds(lines, i, body, jumps, labels, stack, pages, started);
      match line {
        case Label(name) =>
          if name in labels {
            Refused(lines, i + 1);
            return Failure("duplicate label");
          }
          labels := labels[name := |body|];
        case Code(s) =>
          started := true;
          if s.Text? && |s.bytes| > MAX_DATA_BYTES {
            Refused(lines, i + 1);
            return Failure("byte constant exceeds VM limit");
          }
          if s.Jump? {
            jumps := jumps + [(|body| + 1, s.target)];
          }
          body := body + Encoded(s, map[]);
          if |body| + HEADER > MAX_CODE_BYTES {
            Refused(lines, i + 1);
            return Failure("code exceeds VM v4 limit");
          }
        case Version =>
          if started {
            Refused(lines, i + 1);
            return Failure("header directives must precede instructions");
          }
        case Stack(limit) =>
          if started {
            Refused(lines, i + 1);
            return Failure("header directives must precede instructions");
          }
          stack := limit;
        case Memory(count) =>
          if started {
            Refused(lines, i + 1);
            return Failure("header directives must precede instructions");
          }
          pages := count;
      }
    }
    assert lines[..|lines|] == lines;
    var src := Instructions(lines);
    var patched := PatchAll(src, body, jumps, labels);
    if patched.None? {
      return Failure("undefined label");
    }
    var code := [0x58, 0x50, 0x56, 0x4d, 4] + LittleEndian(stack, 2) + LittleEndian(pages, 2) + LittleEndian(0, 4) + patched.value;
    assert code == Image(lines) by { HeaderIs(stack, pages); }
    var ok := Validate(code);
    if !ok {
      return Failure("kernel rejected bytecode");
    }
    o := Success(code);
  }

  lemma HeaderIs(stack: nat, pages: nat)
    ensures Header(stack, pages) == [0x58, 0x50, 0x56, 0x4d, 4] + LittleEndian(stack, 2) + LittleEndian(pages, 2) + LittleEndian(0, 4)
  {
  }

  /** The first pass's variables after some lines. */
  predicate Progress(lines: seq<Line>, body: seq<Byte>, jumps: seq<(nat, string)>, labels: map<string, nat>, stack: nat, pages: nat, started: bool) {
    && body == Flat(Instructions(lines), map[]) && |body| == Offset(Instructions(lines))
    && jumps == Fixups(Instructions(lines)) && labels == Labels(lines)
    && stack == StackOf(lines) && pages == PagesOf(lines)
    && (started <==> Instructions(lines) != [])
  }

  lemma NothingYet()
    ensures Accepted([]) && Progress([], [], [], map[], 64, 1, false)
  {
  }

  /** What one more line adds to each variable, and when it is accepted. */
  lemma LineAdds(lines: seq<Line>, i: nat, body: seq<Byte>, jumps: seq<(nat, string)>, labels: map<string, nat>, stack: nat, pages: nat, started: bool)
    requires i < |lines| && Progress(lines[..i], body, jumps, labels, stack, pages, started) && Accepted(lines[..i])
    ensures lines[i].Label? ==>
              && Progress(lines[..i + 1], body, jumps, labels[lines[i].name := |body|], stack, pages, started)
              && (Accepted(lines[..i + 1]) <==> lines[i].name !in labels)
    ensures lines[i].Code? ==>
              var s := lines[i].ins;
              && Progress(lines[..i + 1], body + Encoded(s, map[]), if s.Jump? then jumps + [(|body| + 1, s.target)] else jumps, labels, stack, pages, true)
              && (Accepted(lines[..i + 1]) <==> (s.Text? ==> |s.bytes| <= MAX_DATA_BYTES) && |body| + Size(s) + HEADER <= MAX_CODE_BYTES)
    ensures !lines[i].Label? && !lines[i].Code? ==>
              && Progress(lines[..i + 1], body, jumps, labels, if lines[i].Stack? then lines[i].limit else stack, if lines[i].Memory? then lines[i].pages else pages, started)
              && (Accepted(lines[..i + 1]) <==> !started)
  {
    hide Flat, Offset, Encoded, Instructions, Fixups;
    var before := lines[..i];
    InstructionsStep(lines, i);
    assert lines[..i + 1][..i] == before && lines[..i + 1][i] == lines[i];
    if lines[i].Code? {
      FlatSnoc(Instructions(before), lines[i].ins, map[]);
      FixupsSnoc(Instructions(before), lines[i].ins);
    }
  }

  lemma InstructionsStep(lines: seq<Line>, i: nat)
    requires i < |lines|
    ensures Instructions(lines[..i + 1]) ==
            if lines[i].Code? then Instructions(lines[..i]) + [lines[i].ins] else Instructions(lines[..i])
  {
    assert lines[..i + 1][..i] == lines[..i];
    assert Instructions(lines[..i]) + [] == Instructions(lines[..i]);
  }

  lemma FixupsSnoc(src: seq<Source>, s: Source)
    ensures Fixups(src + [s]) == if s.Jump? then Fixups(src) + [(Offset(src) + 1, s.target)] else Fixups(src)
  {
    assert (src + [s])[..|src|] == src;
    assert Fixups(src) + [] == Fixups(src);
  }

  lemma {:induction false} Refused(lines: seq<Line>, i: nat)
    requires i <= |lines| && !Accepted(lines[..i])
    ensures !Accepted(lines)
    decreases |lines| - i
  {
    hide Labels, Instructions, Offset;
    if i < |lines| {
      assert lines[..i + 1][..i] == lines[..i];
      Refused(lines, i + 1);
    } else {
      assert lines[..i] == lines;
    }
  }

  predicate Patchable(body: seq<Byte>, fixups: seq<(nat, string)>, labels: map<string, nat>) {
    forall i :: 0 <= i < |fixups| ==> fixups[i].0 + 4 <= |body| && fixups[i].1 in labels
  }

  /** The body after patching these operands in turn. */
  function Patched(body: seq<Byte>, fixups: seq<(nat, string)>, labels: map<string, nat>): (after: seq<Byte>)
    requires Patchable(body, fixups, labels)
    ensures |after| == |body|
  {
    if fixups == [] then body
    else
      var last := fixups[|fixups| - 1];
      Patch(Patched(body, fixups[..|fixups| - 1], labels), last.0, LittleEndian(labels[last.1], 4))
  }

  lemma PatchedSnoc(body: seq<Byte>, fixups: seq<(nat, string)>, x: (nat, string), labels: map<string, nat>)
    requires Patchable(body, fixups, labels) && x.0 + 4 <= |body| && x.1 in labels
    ensures Patchable(body, fixups + [x], labels)
    ensures Patched(body, fixups + [x], labels) == Patch(Patched(body, fixups, labels), x.0, LittleEndian(labels[x.1], 4))
  {
    hide LittleEndian, Patch;
    assert (fixups + [x])[..|fixups|] == fixups;
  }

  lemma PatchedNothing(body: seq<Byte>, labels: map<string, nat>)
    ensures Patchable(body, [], labels) && Patched(body, [], labels) == body
  {
  }

  /** The second pass. */
  method PatchAll(ghost src: seq<Source>, body: seq<Byte>, jumps: seq<(nat, string)>, labels: map<string, nat>)
    returns (o: Option<seq<Byte>>)
    requires body == Flat(src, map[]) && jumps == Fixups(src)
    ensures o.Some? <==> Resolved(src, labels)
    ensures o.Some? ==> o.value == Flat(src, labels)
  {
    hide Flat, Fixups, Resolved, Patch, Patched, Patchable, LittleEndian;
    var out := body;
    assert jumps[..0] == [];
    PatchedNothing(body, labels);
    FixupsInside(src);
    ResolvedIff(src, labels);
    for i := 0 to |jumps|
      invariant Patchable(body, jumps[..i], labels) && out == Patched(body, jumps[..i], labels)
      invariant forall k :: 0 <= k < i ==> jumps[k].1 in labels
    {
      if jumps[i].1 !in labels {
        return None;
      }
      assert jumps[..i + 1] == jumps[..i] + [jumps[i]];
      PatchedSnoc(body, jumps[..i], jumps[i], labels);
      out := Patch(out, jumps[i].0, LittleEndian(labels[jumps[i].1], 4));
    }
    assert jumps[..|jumps|] == jumps;
    PatchedIsFlat(src, labels);
    o := Some(out);
  }

  /** Every operand to patch lies inside the body. */
  lemma {:induction false} FixupsInside(src: seq<Source>)
    ensures forall i :: 0 <= i < |Fixups(src)| ==> Fixups(src)[i].0 + 4 <= |Flat(src, map[])|
  {
    hide Flat, Offset;
    FlatLength(src, map[]);
    if src != [] {
      var before, last := src[..|src| - 1], src[|src| - 1];
      assert src == before + [last];
      FixupsInside(before);
      FlatLength(before, map[]);
      FlatSnoc(before, last, map[]);
    }
  }

  predicate Known(fixups: seq<(nat, string)>, labels: map<string, nat>) {
    forall i :: 0 <= i < |fixups| ==> fixups[i].1 in labels
  }

  lemma KnownSnoc(fixups: seq<(nat, string)>, x: (nat, string), labels: map<string, nat>)
    ensures Known(fixups + [x], labels) <==> Known(fixups, labels) && x.1 in labels
  {
    var longer := fixups + [x];
    assert longer[|fixups|] == x && forall i :: 0 <= i < |fixups| ==> longer[i] == fixups[i];
  }

  lemma ResolvedSnoc(src: seq<Source>, s: Source, labels: map<string, nat>)
    ensures Resolved(src + [s], labels) <==> Resolved(src, labels) && (s.Jump? ==> s.target in labels)
  {
    var longer := src + [s];
    assert longer[|src|] == s && forall i :: 0 <= i < |src| ==> longer[i] == src[i];
  }

  /** The second pass looks up exactly the jumps' labels. */
  lemma {:induction false} ResolvedIff(src: seq<Source>, labels: map<string, nat>)
    ensures Resolved(src, labels) <==> Known(Fixups(src), labels)
  {
    if src != [] {
      hide Resolved, Known, Fixups, Offset;
      var before, last := src[..|src| - 1], src[|src| - 1];
      assert src == before + [last];
      ResolvedIff(before, labels);
      ResolvedSnoc(before, last, labels);
      FixupsSnoc(before, last);
      if last.Jump? {
        KnownSnoc(Fixups(before), (Offset(before) + 1, last.target), labels);
      }
    }
  }

  /** Patching inside a prefix leaves what follows alone. */
  lemma {:induction false} PatchedPrefix(a: seq<Byte>, b: seq<Byte>, fixups: seq<(nat, string)>, labels: map<string, nat>)
    requires Patchable(a, fixups, labels)
    ensures Patchable(a + b, fixups, labels) && Patched(a + b, fixups, labels) == Patched(a, fixups, labels) + b
  {
    if fixups != [] {
      var n := |fixups| - 1;
      PatchedPrefix(a, b, fixups[..n], labels);
      var mid, last := Patched(a, fixups[..n], labels), fixups[n];
      assert Patch(mid + b, last.0, LittleEndian(labels[last.1], 4)) == Patch(mid, last.0, LittleEndian(labels[last.1], 4)) + b;
    }
  }

  /** Filling a jump's operand turns its placeholder into its encoding. */
  lemma OperandPatched(a: seq<Byte>, s: Source, labels: map<string, nat>)
    requires s.Jump? && s.target in labels
    ensures Patch(a + Encoded(s, map[]), |a| + 1, LittleEndian(labels[s.target], 4)) == a + Encoded(s, labels)
  {
    hide LittleEndian, Patch;
    PatchTail(a, [if s.zero then 0x21 else 0x20], LittleEndian(0, 4), LittleEndian(labels[s.target], 4));
  }

  lemma PatchTail(a: seq<Byte>, x: seq<Byte>, was: seq<Byte>, now: seq<Byte>)
    requires |x| == 1 && |was| == |now|
    ensures Patch(a + (x + was), |a| + 1, now) == a + (x + now)
  {
    var body := a + (x + was);
    assert body[..|a| + 1] == a + x;
    assert body[|a| + 1 + |now|..] == [];
    assert a + x + now + [] == a + (x + now);
  }

  lemma {:induction false} PatchedIsFlat(src: seq<Source>, labels: map<string, nat>)
    requires Resolved(src, labels)
    ensures Patchable(Flat(src, map[]), Fixups(src), labels)
    ensures Patched(Flat(src, map[]), Fixups(src), labels) == Flat(src, labels)
  {
    hide Offset, Encoded, Patch, Flat, Patched, Patchable, LittleEndian, Resolved, Fixups;
    if src == [] {
      FlatNothing(labels);
      FlatNothing(map[]);
      FixupsNothing();
      PatchedNothing([], labels);
    } else {
      var before, last := src[..|src| - 1], src[|src| - 1];
      assert src == before + [last];
      ResolvedSnoc(before, last, labels);
      PatchedIsFlat(before, labels);
      FlatSnoc(before, last, map[]);
      FlatSnoc(before, last, labels);
      FixupsSnoc(before, last);
      FlatLength(before, map[]);
      FlatLength(before, labels);
      PatchedPrefix(Flat(before, map[]), Encoded(last, map[]), Fixups(before), labels);
      if last.Jump? {
        OperandPatched(Flat(before, labels), last, labels);
        PatchedSnoc(Flat(src, map[]), Fixups(before), (Offset(before) + 1, last.target), labels);
      } else {
        SameEncoding(last, labels);
      }
    }
  }

  lemma FixupsNothing()
    ensures Fixups([]) == []
  {
  }

  lemma FlatNothing(labels: map<string, nat>)
    ensures Flat([], labels) == []
  {
  }

  lemma SameEncoding(s: Source, labels: map<string, nat>)
    requires !s.Jump?
    ensures Encoded(s, map[]) == Encoded(s, labels)
  {
  }
}
