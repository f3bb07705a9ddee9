/** The kernel's validation of application bytecode (kernel/src/program/vm_app/validation.rs):
    decoding at instruction boundaries, jump targets, and limits. */
module Bytecode {
  import opened Wrappers
  import opened Bytes

  const MAX_DATA_BYTES := 4096
  const MAX_CODE_BYTES := 65536
  const MAX_PROGRAM_CODE_SIZE := 1_048_576
  const MAX_INSTRUCTIONS := 4096
  const MAX_STACK_ITEMS := 256
  const MAX_MEMORY_PAGES := 16
  const HEADER := 13

  /** The opcodes without an immediate operand. */
  predicate IsPlain(op: Byte) {
    || op == 0x00 || 0x02 <= op <= 0x05 || 0x12 <= op <= 0x19
    || 0x22 <= op <= 0x2b || 0x30 <= op <= 0x37 || 0x40 <= op <= 0x4c
  }

  function LittleEndian(n: nat, size: nat): (s: seq<Byte>)
    ensures |s| == size
    decreases size
  {
    if size == 0 then [] else [n % 256] + LittleEndian(n / 256, size - 1)
  }

  function FromLittleEndian(s: seq<Byte>): nat {
    if s == [] then 0 else s[0] + 256 * FromLittleEndian(s[1..])
  }

  lemma {:induction false} LittleEndianRoundTrip(n: nat, size: nat)
    requires n < Pow256(size)
    ensures FromLittleEndian(LittleEndian(n, size)) == n
    decreases size
  {
    if size > 0 {
      LittleEndianRoundTrip(n / 256, size - 1);
      assert LittleEndian(n, size)[1..] == LittleEndian(n / 256, size - 1);
    }
  }

  datatype Machine = Machine(op: Byte, immediate: seq<Byte>)

  /** Where the immediate of the instruction at `pc` starts, and its length. */
  function Operand(code: seq<Byte>, pc: nat): Option<(nat, nat)>
    requires pc < |code|
  {
    var op := code[pc];
    if op == 0x01 then Some((pc + 1, 16))
    else if op == 0x11 then Some((pc + 1, 33))
    else if op == 0x20 || op == 0x21 then Some((pc + 1, 4))
    else if op == 0x10 then
      if pc + 3 > |code| then None
      else
        var n := FromLittleEndian(code[pc + 1..pc + 3]);
        if n > MAX_DATA_BYTES then None else Some((pc + 3, n))
    else if IsPlain(op) then Some((pc + 1, 0))
    else None
  }

  /** The instruction at `pc` and where the next one starts. */
  function Take(code: seq<Byte>, pc: nat): (o: Option<(Machine, nat)>)
    requires pc < |code|
    ensures o.Some? ==> pc < o.value.1 <= |code|
  {
    match Operand(code, pc)
    case None => None
    case Some((start, n)) =>
      if start + n > |code| then None
      else if code[pc] == 0x11 && code[start] != 0 then None
      else Some((Machine(code[pc], code[start..start + n]), start + n))
  }

  /** Everything from `pc` on. */
  function DecodeFrom(code: seq<Byte>, pc: nat): Option<seq<Machine>>
    requires pc <= |code|
    decreases |code| - pc
  {
    if pc == |code| then Some([])
    else
      match Take(code, pc)
      case None => None
      case Some((m, next)) =>
        match DecodeFrom(code, next)
        case None => None
        case Some(ms) => Some([m] + ms)
  }

  /** The boundaries from `pc` on, up to the first instruction that does not decode. */
  function Starts(code: seq<Byte>, pc: nat): seq<nat>
    requires pc <= |code|
    decreases |code| - pc
  {
    if pc == |code| then []
    else
      match Take(code, pc)
      case None => []
      case Some((m, next)) => [pc] + Starts(code, next)
  }

  predicate IsJump(m: Machine) {
    m.op == 0x20 || m.op == 0x21
  }

  /** The jump, if it is one, goes to a boundary. */
  predicate Lands(m: Machine, starts: seq<nat>) {
    IsJump(m) ==> HEADER + FromLittleEndian(m.immediate) in starts
  }

  predicate Returns(ms: seq<Machine>) {
    exists i :: 0 <= i < |ms| && ms[i].op == 0x03
  }

  predicate HeaderFits(code: seq<Byte>)
    requires |code| >= HEADER
  {
    && code[..4] == [0x58, 0x50, 0x56, 0x4d] && code[4] == 4
    && 1 <= FromLittleEndian(code[5..7]) <= MAX_STACK_ITEMS
    && 1 <= FromLittleEndian(code[7..9]) <= MAX_MEMORY_PAGES
    && FromLittleEndian(code[9..13]) == 0
  }

  /** What the kernel accepts. */
  predicate Validates(code: seq<Byte>) {
    && HEADER < |code| <= MAX_CODE_BYTES && HeaderFits(code)
    && DecodeFrom(code, HEADER).Some?
    && var ms, starts := DecodeFrom(code, HEADER).value, Starts(code, HEADER);
       && |ms| <= MAX_INSTRUCTIONS && Returns(ms)
       && forall i :: 0 <= i < |ms| ==> Lands(ms[i], starts)
  }

  /** `validate`, with the kernel's `validate_code`. */
  method Validate(code: seq<Byte>) returns (ok: bool)
    ensures ok <==> Validates(code)
  {
    hide DecodeFrom, Starts, Returns, Lands, FromLittleEndian;
    if |code| > MAX_PROGRAM_CODE_SIZE || |code| < HEADER || code[..4] != [0x58, 0x50, 0x56, 0x4d] || code[4] != 4
       || |code| > MAX_CODE_BYTES
    {
      return false;
    }
    var decoded := DecodeAll(code);
    if decoded.None? {
      return false;
    }
    var (starts, ms, returned) := decoded.value;
    var landed := AllLand(ms, starts);
    if !landed || !returned {
      return false;
    }
    var stack, pages := FromLittleEndian(code[5..7]), FromLittleEndian(code[7..9]);
    if stack == 0 || stack > MAX_STACK_ITEMS || pages == 0 || pages > MAX_MEMORY_PAGES {
      return false;
    }
    FirstStart(code);
    ok := FromLittleEndian(code[9..13]) == 0 && HEADER in starts;
  }

  /** The first boundary is the entry, unless there is no code. */
  lemma FirstStart(code: seq<Byte>)
    requires |code| >= HEADER && DecodeFrom(code, HEADER).Some?
    ensures HEADER in Starts(code, HEADER) <==> |code| > HEADER
  {
  }

  /** The decoding loop: boundaries, instructions, and whether one of them returns. */
  method DecodeAll(code: seq<Byte>) returns (o: Option<(seq<nat>, seq<Machine>, bool)>)
    requires |code| >= HEADER
    ensures o.Some? <==> DecodeFrom(code, HEADER).Some? && |DecodeFrom(code, HEADER).value| <= MAX_INSTRUCTIONS
    ensures o.Some? ==>
              && o.value.0 == Starts(code, HEADER) && o.value.1 == DecodeFrom(code, HEADER).value
              && (o.value.2 <==> Returns(o.value.1))
  {
    hide Take, DecodeFrom, Starts, Returns;
    var pc, starts: seq<nat>, decoded: seq<Machine>, returned := HEADER, [], [], false;
    Nothing(code);
    while pc < |code|
      invariant pc <= |code| && |decoded| <= MAX_INSTRUCTIONS
      invariant DecodeFrom(code, HEADER) == if DecodeFrom(code, pc).None? then None else Some(decoded + DecodeFrom(code, pc).value)
      invariant Starts(code, HEADER) == starts + Starts(code, pc)
      invariant returned <==> Returns(decoded)
      decreases |code| - pc
    {
      DecodeStep(code, pc);
      if |decoded| >= MAX_INSTRUCTIONS {
        return None;
      }
      var step := Take(code, pc);
      if step.None? {
        return None;
      }
      var (m, next) := step.value;
      if DecodeFrom(code, next).Some? {
        Append3(decoded, m, DecodeFrom(code, next).value);
      }
      Append3(starts, pc, Starts(code, next));
      ReturnsSnoc(decoded, m);
      returned := returned || m.op == 0x03;
      starts, decoded := starts + [pc], decoded + [m];
      pc := next;
    }
    Finished(code);
    assert starts + [] == starts && decoded + [] == decoded;
    o := Some((starts, decoded, returned));
  }

  lemma Nothing(code: seq<Byte>)
    requires |code| >= HEADER
    ensures DecodeFrom(code, HEADER).Some? ==> [] + DecodeFrom(code, HEADER).value == DecodeFrom(code, HEADER).value
    ensures [] + Starts(code, HEADER) == Starts(code, HEADER) && !Returns([])
  {
  }

  lemma Finished(code: seq<Byte>)
    ensures DecodeFrom(code, |code|) == Some([]) && Starts(code, |code|) == []
  {
  }

  lemma ReturnsSnoc(ms: seq<Machine>, m: Machine)
    ensures Returns(ms + [m]) <==> Returns(ms) || m.op == 0x03
  {
    var longer := ms + [m];
    assert longer[|ms|] == m && forall i :: 0 <= i < |ms| ==> longer[i] == ms[i];
  }

  method AllLand(ms: seq<Machine>, starts: seq<nat>) returns (ok: bool)
    ensures ok <==> forall i :: 0 <= i < |ms| ==> Lands(ms[i], starts)
  {
    hide FromLittleEndian;
    for i := 0 to |ms|
      invariant forall k :: 0 <= k < i ==> Lands(ms[k], starts)
    {
      if IsJump(ms[i]) && HEADER + FromLittleEndian(ms[i].immediate) !in starts {
        assert !Lands(ms[i], starts);
        return false;
      }
    }
    ok := true;
  }

  lemma DecodeStep(code: seq<Byte>, pc: nat)
    requires pc < |code|
    ensures Take(code, pc).None? ==> DecodeFrom(code, pc).None?
    ensures Take(code, pc).Some? ==>
              var (m, next) := Take(code, pc).value;
              && DecodeFrom(code, pc) == (if DecodeFrom(code, next).None? then None else Some([m] + DecodeFrom(code, next).value))
              && Starts(code, pc) == [pc] + Starts(code, next)
    ensures DecodeFrom(code, pc).Some? ==> DecodeFrom(code, pc).value != []
  {
  }

  lemma Append3<T>(a: seq<T>, x: T, b: seq<T>)
    ensures a + ([x] + b) == a + [x] + b
  {
  }
}
