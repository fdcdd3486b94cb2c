/** Calls, returns and variable definitions on the stack index of the process a CPU executes. */
module CallStack {
  import opened Bytes
  import opened Rounding
  import opened PcbWire

  const STACK_OVERFLOW: int32 := -14

  predicate IsLetter(id: byte) {
    'A' as int <= id <= 'Z' as int || 'a' as int <= id <= 'z' as int
  }

  predicate IsDigit(id: byte) {
    '0' as int <= id <= '9' as int
  }

  /** The state the primitives expect: a current frame, counts that match, and a stack end inside a page. */
  predicate Usable(p: Pcb, pageSize: int) {
    && 4 <= pageSize < 0x7fff_fffc && CountsMatch(p) && p.frames != []
    && 0 <= p.stackEnd.page <= p.pages && 0 <= p.stackEnd.offset < pageSize
  }

  // ---------------------------------------------------------------- the primitives

  /** The stack end four bytes further. */
  function Advanced(a: Address, pageSize: int): Address
    requires 4 <= pageSize < 0x7fff_fffc && 0 <= a.offset < pageSize && a.page < 0x7fff_ffff
  {
    if a.offset + 4 >= pageSize then a.(offset := a.offset + 4 - pageSize, page := a.page + 1)
    else a.(offset := a.offset + 4)
  }

  function WithSlot(f: Frame, id: byte, a: Address): Frame {
    if IsLetter(id) then f.(variables := f.variables + [Variable(id, a)])
    else if IsDigit(id) then f.(arguments := f.arguments + [a])
    else f
  }

  /** `funciones_definirVariables`. */
  function Defined(p: Pcb, id: byte, pageSize: int): Pcb
    requires Usable(p, pageSize)
  {
    if p.flags.abnormal then p
    else if p.stackEnd.page == p.pages then p.(exitCode := STACK_OVERFLOW, flags := p.flags.(abnormal := true))
    else
      var last := |p.frames| - 1;
      p.(frames := p.frames[last := WithSlot(p.frames[last], id, p.stackEnd)],
         stackEnd := Advanced(p.stackEnd, pageSize))
  }

  /** `puntero_a_posicionMemoria`. */
  function ToAddress(pointer: nat, pageSize: nat, pid: int32): Address
    requires 0 < pageSize < 0x7fff_fffc && pointer < 0x8000_0000
  {
    Quotients(pointer, pageSize);
    Address(pid, pointer / pageSize, pointer % pageSize, 4)
  }

  lemma Quotients(x: nat, d: nat)
    requires 0 < d
    ensures x / d <= x && x % d < d
  {
    Split(x, d);
    AtLeast(x / d, d);
  }

  lemma {:induction false} AtLeast(n: nat, d: nat)
    requires 0 < d
    ensures n <= At(n, d)
  {
    if n == 0 {
    } else {
      AtLeast(n - 1, d);
    }
  }

  /** `funciones_llamarConRetorno`, and `funciones_llamarSinRetorno` if there is no pointer. */
  function Called(p: Pcb, target: int32, pointer: nat, returns': bool, pageSize: int): Pcb
    requires Usable(p, pageSize) && |p.frames| < 0x7fff_ffff && pointer < 0x8000_0000
  {
    if p.flags.abnormal then p
    else
      var address := ToAddress(if returns' then pointer else 0, pageSize, p.pid);
      p.(frames := p.frames + [Frame(p.frameCount + 1, [], [], p.pc, address)], frameCount := p.frameCount + 1,
         pc := target, flags := p.flags.(called := true, calledNoReturn := p.flags.calledNoReturn || !returns'))
  }

  /** The frame on top is dropped: `funciones_retornar`, and `volverAlMain` at an `end`. */
  function Popped(p: Pcb): Pcb
    requires p.frames != [] && CountsMatch(p)
  {
    var last := |p.frames| - 1;
    p.(frames := p.frames[..last], frameCount := p.frameCount - 1, pc := p.frames[last].returnTo)
  }

  function Returned(p: Pcb): Pcb
    requires p.frames != [] && CountsMatch(p)
  {
    if p.flags.abnormal then p else Popped(p)
  }

  // ---------------------------------------------------------------- what they do, one part at a time

  /** The top frame has one entry more, at the old stack end, which moves on by four bytes; nothing else changes. */
  ghost predicate Gained(p: Pcb, q: Pcb, id: byte, pageSize: int) {
    && p.frames != [] && |q.frames| == |p.frames| && q.frames[..|p.frames| - 1] == p.frames[..|p.frames| - 1]
    && q == p.(frames := q.frames, stackEnd := q.stackEnd)
    && (var top, was := q.frames[|p.frames| - 1], p.frames[|p.frames| - 1];
        var letter, digit := 65 <= id <= 90 || 97 <= id <= 122, 48 <= id <= 57;
        top == was.(arguments := top.arguments, variables := top.variables) &&
        top.variables == (if letter then was.variables + [Variable(id, p.stackEnd)] else was.variables) &&
        top.arguments == (if digit then was.arguments + [p.stackEnd] else was.arguments))
    && q.stackEnd == p.stackEnd.(page := q.stackEnd.page, offset := q.stackEnd.offset)
    && 0 <= q.stackEnd.offset < pageSize
    && q.stackEnd.page * pageSize + q.stackEnd.offset == p.stackEnd.page * pageSize + p.stackEnd.offset + 4
  }

  lemma GainedByDefinition(p: Pcb, id: byte, pageSize: int)
    requires Usable(p, pageSize)
    ensures !p.flags.abnormal && p.stackEnd.page != p.pages ==> Gained(p, Defined(p, id, pageSize), id, pageSize)
  {
    if !p.flags.abnormal && p.stackEnd.page != p.pages { AdvancedLinear(p.stackEnd, pageSize); }
  }

  /** One frame more, empty, which returns to where the program was; besides, only program counter and flags change. */
  ghost predicate EntersFrame(p: Pcb, q: Pcb) {
    && |q.frames| == |p.frames| + 1 && q.frames[..|p.frames|] == p.frames && q.frameCount == p.frameCount + 1
    && (var top := q.frames[|p.frames|];
        top.arguments == [] && top.variables == [] && top.returnTo == p.pc && top.position == q.frameCount)
    && q == p.(frames := q.frames, frameCount := q.frameCount, pc := q.pc, flags := q.flags)
  }

  /** The top frame is gone, and the program goes on where it says; besides, only flags change. */
  ghost predicate LeavesFrame(p: Pcb, q: Pcb) {
    && p.frames != [] && q.frames == p.frames[..|p.frames| - 1] && q.frameCount == p.frameCount - 1
    && q.pc == p.frames[|p.frames| - 1].returnTo
    && q == p.(frames := q.frames, frameCount := q.frameCount, pc := q.pc, flags := q.flags)
  }

  class Cpu {
    const pageSize: int
    /** `pcbActual`. */
    var pcb: Pcb

    /** Where the new variable or argument is. The pointer of any other identifier is not set by the source. */
    method DefineVariable(id: byte) returns (pointer: int)
      requires Usable(pcb, pageSize)
      modifies this
      ensures pcb == Defined(old(pcb), id, pageSize)
      ensures old(pcb).flags.abnormal || old(pcb).stackEnd.page == old(pcb).pages ==> pointer == -1
      ensures !pcb.flags.abnormal && (IsLetter(id) || IsDigit(id)) ==>
                pointer == old(pcb).stackEnd.page * pageSize + old(pcb).stackEnd.offset
      ensures old(pcb).flags.abnormal ==> pcb == old(pcb)
      ensures !old(pcb).flags.abnormal && old(pcb).stackEnd.page == old(pcb).pages ==>
                pcb == old(pcb).(exitCode := -14, flags := old(pcb).flags.(abnormal := true))
      ensures !old(pcb).flags.abnormal && old(pcb).stackEnd.page != old(pcb).pages ==>
                Gained(old(pcb), pcb, id, pageSize)
    {
      GainedByDefinition(pcb, id, pageSize);
      if pcb.flags.abnormal {
        return -1;
      }
      if pcb.stackEnd.page == pcb.pages {
        pcb := pcb.(exitCode := STACK_OVERFLOW);
        pcb := pcb.(flags := pcb.flags.(abnormal := true));
        return -1;
      }
      var last := pcb.frameCount - 1;
      var frame := pcb.frames[last];
      pointer := 0;
      if IsLetter(id) {
        frame := frame.(variables := frame.variables + [Variable(id, pcb.stackEnd)]);
        pointer := ToPointer(pcb.stackEnd.page, pcb.stackEnd.offset, pageSize);
      }
      if IsDigit(id) {
        frame := frame.(arguments := frame.arguments + [pcb.stackEnd]);
        pointer := ToPointer(pcb.stackEnd.page, pcb.stackEnd.offset, pageSize);
      }
      pcb := pcb.(frames := pcb.frames[last := frame]);
      var end := pcb.stackEnd;
      var offset := end.offset + 4;
      if offset >= pageSize {
        pcb := pcb.(stackEnd := end.(offset := offset - pageSize, page := end.page + 1));
      } else {
        pcb := pcb.(stackEnd := end.(offset := offset));
      }
    }

    method GoTo(target: int32)
      modifies this
      ensures pcb == if old(pcb).flags.abnormal then old(pcb)
                     else old(pcb).(pc := target, flags := old(pcb).flags.(called := true))
    {
      if !pcb.flags.abnormal {
        pcb := pcb.(flags := pcb.flags.(called := true));
        pcb := pcb.(pc := target);
      }
    }

    /**
     The program goes on at the label, in a new frame that is empty and remembers where the call came from. An abnormal
     process does not call.
     */
    method CallNoReturn(target: int32)
      requires Usable(pcb, pageSize) && |pcb.frames| < 0x7fff_ffff
      modifies this
      ensures pcb == Called(old(pcb), target, 0, false, pageSize)
      ensures old(pcb).flags.abnormal ==> pcb == old(pcb)
      ensures !old(pcb).flags.abnormal ==> pcb.pc == target && EntersFrame(old(pcb), pcb)
      ensures !old(pcb).flags.abnormal ==>
                pcb.flags == old(pcb).flags.(called := true, calledNoReturn := true)
    {
      if pcb.flags.abnormal {
        return;
      }
      pcb := pcb.(flags := pcb.flags.(calledNoReturn := true));
      pcb := pcb.(frameCount := pcb.frameCount + 1);
      var frame := Frame(pcb.frameCount, [], [], pcb.pc, ToAddress(0, pageSize, pcb.pid));
      pcb := pcb.(frames := pcb.frames + [frame]);
      GoTo(target);
    }

    /** The same, with the place where the returned value goes. */
    method CallWithReturn(target: int32, pointer: nat)
      requires Usable(pcb, pageSize) && |pcb.frames| < 0x7fff_ffff && pointer < 0x8000_0000
      modifies this
      ensures pcb == Called(old(pcb), target, pointer, true, pageSize)
      ensures old(pcb).flags.abnormal ==> pcb == old(pcb)
      ensures !old(pcb).flags.abnormal ==> pcb.pc == target && EntersFrame(old(pcb), pcb)
      ensures !old(pcb).flags.abnormal ==>
                pcb.flags == old(pcb).flags.(called := true) &&
                var a := pcb.frames[|pcb.frames| - 1].returnVariable;
                a.pid == pcb.pid && a.size == 4 && 0 <= a.offset < pageSize && a.page * pageSize + a.offset == pointer
    {
      AddressRoundTrip(pointer, pageSize, pcb.pid);
      if pcb.flags.abnormal {
        return;
      }
      pcb := pcb.(frameCount := pcb.frameCount + 1);
      var frame := Frame(pcb.frameCount, [], [], pcb.pc, ToAddress(pointer, pageSize, pcb.pid));
      pcb := pcb.(frames := pcb.frames + [frame]);
      GoTo(target);
    }

    /** The pointer is where the returned value is assigned. */
    method Return() returns (pointer: int)
      requires Usable(pcb, pageSize)
      requires 0 <= pcb.frames[|pcb.frames| - 1].returnVariable.page
      requires 0 <= pcb.frames[|pcb.frames| - 1].returnVariable.offset
      modifies this
      ensures pcb == Returned(old(pcb))
      ensures !pcb.flags.abnormal ==>
                var a := old(pcb).frames[|old(pcb).frames| - 1].returnVariable;
                pointer == a.page * pageSize + a.offset
      ensures old(pcb).flags.abnormal ==> pcb == old(pcb) && pointer == -1
      ensures !old(pcb).flags.abnormal ==> LeavesFrame(old(pcb), pcb) && pcb.flags == old(pcb).flags
    {
      if pcb.flags.abnormal {
        return -1;
      }
      var last := pcb.frameCount - 1;
      var frame := pcb.frames[last];
      pcb := pcb.(frames := pcb.frames[..last] + pcb.frames[last + 1..]);
      pointer := ToPointer(frame.returnVariable.page, frame.returnVariable.offset, pageSize);
      pcb := pcb.(frameCount := pcb.frameCount - 1);
      pcb := pcb.(pc := frame.returnTo);
    }

    /** `volverAlMain`; `atEnd` is whether the instruction is an `end`. */
    method BackToCaller(atEnd: bool)
      requires Usable(pcb, pageSize)
      modifies this
      ensures pcb
              == if atEnd then Popped(old(pcb)).(flags := old(pcb).flags.(calledNoReturn := false, finished := false))
                     else old(pcb)
      ensures !atEnd ==> pcb == old(pcb)
      ensures atEnd ==>
                LeavesFrame(old(pcb), pcb) &&
                pcb.flags == old(pcb).flags.(calledNoReturn := false, finished := false)
    {
      if atEnd {
        pcb := pcb.(flags := pcb.flags.(calledNoReturn := false, finished := false));
        var last := pcb.frameCount - 1;
        var frame := pcb.frames[last];
        pcb := pcb.(frames := pcb.frames[..last] + pcb.frames[last + 1..]);
        pcb := pcb.(frameCount := pcb.frameCount - 1);
        pcb := pcb.(pc := frame.returnTo);
      }
    }
  }

  // ---------------------------------------------------------------- no two variables share a byte

  function Linear(a: Address, pageSize: int): int {
    a.page * pageSize + a.offset
  }

  /** Does the 4-byte value at `a` cover byte `x`? */
  function Covers(a: Address, x: int, pageSize: int): nat {
    if Linear(a, pageSize) <= x < Linear(a, pageSize) + 4 then 1 else 0
  }

  ghost function CoverArguments(args: seq<Address>, x: int, pageSize: int): nat {
    if args == [] then 0
    else CoverArguments(args[..|args| - 1], x, pageSize) + Covers(args[|args| - 1], x, pageSize)
  }

  ghost function CoverVariables(vars: seq<Variable>, x: int, pageSize: int): nat {
    if vars == [] then 0
    else CoverVariables(vars[..|vars| - 1], x, pageSize) + Covers(vars[|vars| - 1].position, x, pageSize)
  }

  /** How many arguments and variables of the frames cover byte `x`. */
  ghost function Covering(fs: seq<Frame>, x: int, pageSize: int): nat {
    if fs == [] then 0
    else
      var top := fs[|fs| - 1];
      Covering(fs[..|fs| - 1], x, pageSize) + CoverArguments(top.arguments, x, pageSize)
      + CoverVariables(top.variables, x, pageSize)
  }

  /** Every byte below the stack end belongs to one argument or variable at most, no byte above to any. */
  ghost predicate Unaliased(p: Pcb, pageSize: int) {
    forall x :: Covering(p.frames, x, pageSize) <= if x < Linear(p.stackEnd, pageSize) then 1 else 0
  }

  lemma AdvancedLinear(a: Address, pageSize: int)
    requires 4 <= pageSize < 0x7fff_fffc && 0 <= a.offset < pageSize && a.page < 0x7fff_ffff
    ensures Linear(Advanced(a, pageSize), pageSize) == Linear(a, pageSize) + 4
    ensures 0 <= Advanced(a, pageSize).offset < pageSize
  {
    assert (a.page + 1) * pageSize == a.page * pageSize + pageSize;
  }

  lemma SlotCovers(f: Frame, id: byte, a: Address, x: int, pageSize: int)
    ensures var g := WithSlot(f, id, a);
            CoverArguments(g.arguments, x, pageSize) + CoverVariables(g.variables, x, pageSize)
            <= CoverArguments(f.arguments, x, pageSize) + CoverVariables(f.variables, x, pageSize)
             + Covers(a, x, pageSize)
  {
    assert (f.variables + [Variable(id, a)])[..|f.variables|] == f.variables;
    assert (f.arguments + [a])[..|f.arguments|] == f.arguments;
  }

  /** A new variable lies where no other one does, and every state reached stays usable and its counts right. */
  lemma DefinedKeeps(p: Pcb, id: byte, pageSize: int)
    requires Usable(p, pageSize)
    ensures Usable(Defined(p, id, pageSize), pageSize)
    ensures Unaliased(p, pageSize) ==> Unaliased(Defined(p, id, pageSize), pageSize)
  {
    var q := Defined(p, id, pageSize);
    if !p.flags.abnormal && p.stackEnd.page != p.pages {
      var last := |p.frames| - 1;
      AdvancedLinear(p.stackEnd, pageSize);
      assert q.frames[..last] == p.frames[..last];
      forall x
        ensures Covering(q.frames, x, pageSize) <= Covering(p.frames, x, pageSize) + Covers(p.stackEnd, x, pageSize)
      {
        SlotCovers(p.frames[last], id, p.stackEnd, x, pageSize);
      }
    }
  }

  lemma CalledKeeps(p: Pcb, target: int32, pointer: nat, returns': bool, pageSize: int)
    requires Usable(p, pageSize) && |p.frames| < 0x7fff_ffff && pointer < 0x8000_0000
    ensures Usable(Called(p, target, pointer, returns', pageSize), pageSize)
    ensures Unaliased(p, pageSize) ==> Unaliased(Called(p, target, pointer, returns', pageSize), pageSize)
  {
    var q := Called(p, target, pointer, returns', pageSize);
    if !p.flags.abnormal {
      assert q.frames[..|p.frames|] == p.frames;
      forall x
        ensures Covering(q.frames, x, pageSize) == Covering(p.frames, x, pageSize)
      {
      }
    }
  }

  /** The stack end does not go back, so what is defined later does not reuse the bytes of a finished call. */
  lemma PoppedKeeps(p: Pcb, pageSize: int)
    requires Usable(p, pageSize)
    ensures CountsMatch(Popped(p)) && (Unaliased(p, pageSize) ==> Unaliased(Popped(p), pageSize))
    ensures Usable(Popped(p), pageSize) <==> 1 < |p.frames|
  {
    forall x
      ensures Covering(Popped(p).frames, x, pageSize) <= Covering(p.frames, x, pageSize)
    {
    }
  }

  // ---------------------------------------------------------------- variables and page ends

  /** The stack end after `n` definitions. */
  function AdvancedBy(a: Address, n: nat, pageSize: int): (r: Address)
    requires 4 <= pageSize < 0x7fff_fffc && 0 <= a.offset < pageSize && a.page + n < 0x7fff_ffff
    ensures 0 <= r.offset < pageSize && r.page <= a.page + n
  {
    if n == 0 then a else Advanced(AdvancedBy(a, n - 1, pageSize), pageSize)
  }

  lemma {:induction false} FirstPage(a: Address, n: nat, pageSize: int)
    requires 4 <= pageSize < 0x7fff_fffc && a.offset == 0 && a.page + n < 0x7fff_ffff && 4 * n < pageSize
    ensures AdvancedBy(a, n, pageSize) == a.(offset := 4 * n)
  {
    if n == 0 {
    } else {
      FirstPage(a, n - 1, pageSize);
    }
  }

  lemma {:induction false} AlignmentStays(a: Address, n: nat, pageSize: int)
    requires 4 <= pageSize < 0x7fff_fffc && a.offset == 0 && a.page + n < 0x7fff_ffff && pageSize % 4 == 0
    ensures AdvancedBy(a, n, pageSize).offset % 4 == 0 && AdvancedBy(a, n, pageSize).offset + 4 <= pageSize
  {
    if n == 0 {
    } else {
      AlignmentStays(a, n - 1, pageSize);
    }
  }

  /** Some variable defined from the start of a page on begins less than four bytes before the end of its page. */
  ghost predicate Straddles(a: Address, pageSize: int)
    requires 4 <= pageSize < 0x7fff_fffc && a.offset == 0
  {
    exists n: nat :: a.page + n < 0x7fff_ffff && AdvancedBy(a, n, pageSize).offset + 4 > pageSize
  }

  /** Every variable fits into its page if and only if the page size is a multiple of four. */
  lemma StraddlesIff(a: Address, pageSize: int)
    requires 4 <= pageSize < 0x7fff_fffc && a.offset == 0 && a.page + pageSize / 4 < 0x7fff_ffff
    ensures Straddles(a, pageSize) <==> pageSize % 4 != 0
  {
    if pageSize % 4 != 0 {
      var n := pageSize / 4;
      FirstPage(a, n, pageSize);
      assert AdvancedBy(a, n, pageSize).offset + 4 > pageSize;
    } else {
      forall n: nat | a.page + n < 0x7fff_ffff
        ensures AdvancedBy(a, n, pageSize).offset + 4 <= pageSize
      {
        AlignmentStays(a, n, pageSize);
      }
    }
  }

  // ---------------------------------------------------------------- a call, its body and its return

  datatype Op = Define(id: byte) | Call(target: int32, pointer: nat, returns': bool) | Return | End

  ghost predicate Applicable(p: Pcb, op: Op, pageSize: int) {
    Usable(p, pageSize) && (op.Call? ==> |p.frames| < 0x7fff_ffff && op.pointer < 0x8000_0000)
  }

  ghost function Apply(p: Pcb, op: Op, pageSize: int): Pcb
    requires Applicable(p, op, pageSize)
  {
    match op
    case Define(id) => Defined(p, id, pageSize)
    case Call(target, pointer, returns') => Called(p, target, pointer, returns', pageSize)
    case Return => Returned(p)
    case End => Popped(p).(flags := p.flags.(calledNoReturn := false, finished := false))
  }

  /** The operations run one after the other and drop no frame below the one at position `n`. */
  ghost predicate RunsAbove(p: Pcb, ops: seq<Op>, n: nat, pageSize: int)
    decreases ops
  {
    ops == [] ||
    (Applicable(p, ops[0], pageSize) && (ops[0].Return? || ops[0].End? ==> n + 1 < |p.frames|)
     && RunsAbove(Apply(p, ops[0], pageSize), ops[1..], n, pageSize))
  }

  ghost function After(p: Pcb, ops: seq<Op>, n: nat, pageSize: int): Pcb
    requires RunsAbove(p, ops, n, pageSize)
    decreases ops
  {
    if ops == [] then p else After(Apply(p, ops[0], pageSize), ops[1..], n, pageSize)
  }

  /** Whatever runs, counts match lists and no two variables share a byte. */
  lemma {:induction false} RunKeeps(p: Pcb, ops: seq<Op>, n: nat, pageSize: int)
    requires Usable(p, pageSize) && RunsAbove(p, ops, n, pageSize)
    ensures Usable(After(p, ops, n, pageSize), pageSize) && CountsMatch(After(p, ops, n, pageSize))
    ensures Unaliased(p, pageSize) ==> Unaliased(After(p, ops, n, pageSize), pageSize)
    decreases ops
  {
    if ops == [] {
    } else {
      var q := Apply(p, ops[0], pageSize);
      match ops[0] {
        case Define(id) => DefinedKeeps(p, id, pageSize);
        case Call(target, pointer, returns') => CalledKeeps(p, target, pointer, returns', pageSize);
        case Return => PoppedKeeps(p, pageSize);
        case End =>
          PoppedKeeps(p, pageSize);
          assert forall x :: Covering(q.frames, x, pageSize) == Covering(Popped(p).frames, x, pageSize);
      }
      RunKeeps(q, ops[1..], n, pageSize);
    }
  }

  ghost predicate SameBelow(p: Pcb, q: Pcb, n: nat) {
    && n < |p.frames| && n < |q.frames| && q.frames[..n] == p.frames[..n]
    && q.frames[n].returnTo == p.frames[n].returnTo && q.frames[n].returnVariable == p.frames[n].returnVariable
  }

  lemma ApplyBelow(p: Pcb, op: Op, n: nat, pageSize: int)
    requires Applicable(p, op, pageSize) && n < |p.frames| && (op.Return? || op.End? ==> n + 1 < |p.frames|)
    ensures SameBelow(p, Apply(p, op, pageSize), n)
  {
  }

  /** Whatever a function does, the frames of its callers stay as they were, and so does where it returns to. */
  lemma {:induction false} BodyKeepsBelow(p: Pcb, ops: seq<Op>, n: nat, pageSize: int)
    requires n < |p.frames| && RunsAbove(p, ops, n, pageSize)
    ensures SameBelow(p, After(p, ops, n, pageSize), n)
    decreases ops
  {
    if ops == [] {
    } else {
      ApplyBelow(p, ops[0], n, pageSize);
      BodyKeepsBelow(Apply(p, ops[0], pageSize), ops[1..], n, pageSize);
    }
  }

  /** The address a call remembers is that of the pointer it was given. */
  lemma AddressRoundTrip(pointer: nat, pageSize: nat, pid: int32)
    requires 0 < pageSize < 0x7fff_fffc && pointer < 0x8000_0000
    ensures var a := ToAddress(pointer, pageSize, pid);
            0 <= a.page && 0 <= a.offset && ToPointer(a.page, a.offset, pageSize) == pointer
  {
    Quotients(pointer, pageSize);
    PointerRoundTrip(pointer / pageSize, pointer % pageSize, pointer, pageSize);
  }

  /** Back at the level of the call, dropping the top frame leaves what the caller had. */
  lemma PopsBack(p: Pcb, q: Pcb, r: Pcb)
    requires CountsMatch(p) && CountsMatch(r) && p.frames != [] && SameBelow(q, r, |p.frames|)
    requires |r.frames| == |p.frames| + 1 && |q.frames| == |p.frames| + 1
    requires q.frames[..|p.frames|] == p.frames && q.frames[|p.frames|].returnTo == p.pc
    ensures Popped(r).frames == p.frames && Popped(r).frameCount == p.frameCount && Popped(r).pc == p.pc
  {
  }

  lemma CalledFrame(p: Pcb, target: int32, pointer: nat, pageSize: int)
    requires Applicable(p, Call(target, pointer, true), pageSize) && !p.flags.abnormal
    ensures var q := Called(p, target, pointer, true, pageSize); var n := |p.frames|;
            |q.frames| == n + 1 && q.frames[..n] == p.frames && q.frames[n].returnTo == p.pc &&
            q.frames[n].returnVariable == ToAddress(pointer, pageSize, p.pid)
  {
  }

  /**
   A return undoes the call it belongs to, whatever definitions, calls and returns lie between: the callers'
   frames, their count and the program counter are back, and the value goes where the call said.
   */
  lemma ReturnUndoesCall(p: Pcb, target: int32, pointer: nat, ops: seq<Op>, pageSize: int)
    requires Applicable(p, Call(target, pointer, true), pageSize) && !p.flags.abnormal
    requires RunsAbove(Called(p, target, pointer, true, pageSize), ops, |p.frames|, pageSize)
    ensures var n := |p.frames|; var r := After(Called(p, target, pointer, true, pageSize), ops, n, pageSize);
            |r.frames| == n + 1 && !r.flags.abnormal ==>
              CountsMatch(r) &&
              Returned(r).frames == p.frames && Returned(r).frameCount == p.frameCount && Returned(r).pc == p.pc &&
              0 <= r.frames[n].returnVariable.page && 0 <= r.frames[n].returnVariable.offset &&
              ToPointer(r.frames[n].returnVariable.page, r.frames[n].returnVariable.offset, pageSize) == pointer
  {
    var n, q := |p.frames|, Called(p, target, pointer, true, pageSize);
    CalledFrame(p, target, pointer, pageSize);
    BodyKeepsBelow(q, ops, n, pageSize);
    CalledKeeps(p, target, pointer, true, pageSize);
    RunKeeps(q, ops, n, pageSize);
    AddressRoundTrip(pointer, pageSize, p.pid);
    if |After(q, ops, n, pageSize).frames| == n + 1 {
      PopsBack(p, q, After(q, ops, n, pageSize));
    }
  }
}
