/** Process control blocks on the wire between kernel and CPU: what is sent field by field is received as it was. */
module PcbWire {
  import opened Bytes
  import opened Rounding

  datatype Address = Address(pid: int32, page: int32, offset: int32, size: int32)

  datatype Instruction = Instruction(start: int32, length: int32)

  datatype Variable = Variable(id: byte, position: Address)

  /** One entry of the stack index. */
  datatype Frame = Frame(position: int32, arguments: seq<Address>, variables: seq<Variable>,
                         returnTo: int32, returnVariable: Address)

  datatype Flags = Flags(finished: bool, called: bool, switched: bool, abnormal: bool,
                         waited: bool, disconnected: bool, running: bool, calledNoReturn: bool)

  /** A PCB with its counts beside its lists, as the source keeps them. */
  datatype Pcb = Pcb(pid: int32, pc: int32, sp: int32, pages: int32, status: int32, exitCode: int32, first: int32,
                     codeCount: int32, code: seq<Instruction>, labelsSize: int32, labels: seq<byte>,
                     functions: int32, labelCount: int32, frameCount: int32, frames: seq<Frame>,
                     stackEnd: Address, flags: Flags)

  // ---------------------------------------------------------------- addresses and pointers

  /** `posicionMemoria_a_puntero`. */
  function ToPointer(page: nat, offset: nat, pageSize: nat): nat {
    page * pageSize + offset
  }

  /** A position inside a page and its pointer determine each other. */
  lemma PointerRoundTrip(page: nat, offset: nat, pointer: nat, pageSize: nat)
    requires offset < pageSize
    ensures ToPointer(page, offset, pageSize) == pointer <==> page == pointer / pageSize && offset == pointer % pageSize
  {
    if ToPointer(page, offset, pageSize) == pointer {
      QuotientUnique(page, pageSize, offset, pointer);
    }
  }

  // ---------------------------------------------------------------- the bytes of each part, before `rest`

  function PutInt(x: int32, rest: seq<byte>): seq<byte> {
    EncodeInt32(x) + rest
  }

  function PutAddress(a: Address, rest: seq<byte>): seq<byte> {
    PutInt(a.pid, PutInt(a.page, PutInt(a.offset, PutInt(a.size, rest))))
  }

  function PutCode(code: seq<Instruction>, rest: seq<byte>): seq<byte> {
    if code == [] then rest else PutInt(code[0].start, PutInt(code[0].length, PutCode(code[1..], rest)))
  }

  function PutArguments(args: seq<Address>, rest: seq<byte>): seq<byte> {
    if args == [] then rest else PutAddress(args[0], PutArguments(args[1..], rest))
  }

  function PutVariables(vars: seq<Variable>, rest: seq<byte>): seq<byte> {
    if vars == [] then rest else [vars[0].id] + PutAddress(vars[0].position, PutVariables(vars[1..], rest))
  }

  predicate FrameFits(f: Frame) {
    |f.arguments| < 0x8000_0000 && |f.variables| < 0x8000_0000
  }

  predicate FramesFit(fs: seq<Frame>) {
    fs == [] || (FrameFits(fs[0]) && FramesFit(fs[1..]))
  }

  function PutFrame(f: Frame, rest: seq<byte>): seq<byte>
    requires FrameFits(f)
  {
    PutInt(f.position,
           PutInt(|f.arguments|,
                  PutArguments(f.arguments,
                               PutInt(|f.variables|,
                                      PutVariables(f.variables,
                                                   PutInt(f.returnTo, PutAddress(f.returnVariable, rest)))))))
  }

  function PutFrames(fs: seq<Frame>, rest: seq<byte>): seq<byte>
    requires FramesFit(fs)
  {
    if fs == [] then rest else PutFrame(fs[0], PutFrames(fs[1..], rest))
  }

  function Bit(b: bool): byte {
    if b then 1 else 0
  }

  function PutFlags(f: Flags, rest: seq<byte>): seq<byte> {
    [Bit(f.finished), Bit(f.called), Bit(f.switched), Bit(f.abnormal),
     Bit(f.waited), Bit(f.disconnected), Bit(f.running), Bit(f.calledNoReturn)] + rest
  }

  function PutBytes(bytes: seq<byte>, rest: seq<byte>): seq<byte> {
    bytes + rest
  }

  function PutPcb(p: Pcb, rest: seq<byte>): seq<byte>
    requires FramesFit(p.frames)
  {
    PutHeader(p, PutInt(p.codeCount, PutCode(p.code, PutInt(p.labelsSize, PutBytes(p.labels, PutStack(p, rest))))))
  }

  function PutHeader(p: Pcb, rest: seq<byte>): seq<byte> {
    PutInt(p.pid,
           PutInt(p.pc, PutInt(p.sp, PutInt(p.pages, PutInt(p.status, PutInt(p.exitCode, PutInt(p.first, rest)))))))
  }

  function PutStack(p: Pcb, rest: seq<byte>): seq<byte>
    requires FramesFit(p.frames)
  {
    PutInt(p.functions,
           PutInt(p.labelCount,
                  PutInt(p.frameCount, PutFrames(p.frames, PutAddress(p.stackEnd, PutFlags(p.flags, rest))))))
  }

  // ---------------------------------------------------------------- counts and lists

  /** How many entries a loop up to `count` visits. */
  function Visits(count: int32): nat {
    if count > 0 then count else 0
  }

  /** The counts say how long the lists are. */
  predicate CountsMatch(p: Pcb) {
    Visits(p.codeCount) == |p.code| && Visits(p.labelsSize) == |p.labels| && Visits(p.frameCount) == |p.frames|
  }

  /** No count exceeds its list: the sender would read past the end. */
  predicate Sendable(p: Pcb) {
    && Visits(p.codeCount) <= |p.code| && Visits(p.labelsSize) <= |p.labels| && Visits(p.frameCount) <= |p.frames|
    && FramesFit(p.frames[..Visits(p.frameCount)])
  }

  /** What the sender transmits: each list up to its count. */
  function Sent(p: Pcb): (r: Pcb)
    requires Sendable(p)
    ensures CountsMatch(r) && (r == p <==> CountsMatch(p))
  {
    p.(code := p.code[..Visits(p.codeCount)], labels := p.labels[..Visits(p.labelsSize)],
       frames := p.frames[..Visits(p.frameCount)])
  }

  // ---------------------------------------------------------------- the bytes say which PCB it was

  lemma SameInt(x: int32, y: int32, r: seq<byte>, t: seq<byte>)
    requires PutInt(x, r) == PutInt(y, t)
    ensures x == y && r == t
  {
    DecodeEncodeInt32(x);
    DecodeEncodeInt32(y);
    assert PutInt(x, r)[..4] == EncodeInt32(x) && PutInt(y, t)[..4] == EncodeInt32(y);
    assert PutInt(x, r)[4..] == r && PutInt(y, t)[4..] == t;
  }

  lemma SameAddress(a: Address, b: Address, r: seq<byte>, t: seq<byte>)
    requires PutAddress(a, r) == PutAddress(b, t)
    ensures a == b && r == t
  {
    SameInt(a.pid, b.pid, PutInt(a.page, PutInt(a.offset, PutInt(a.size, r))),
            PutInt(b.page, PutInt(b.offset, PutInt(b.size, t))));
    SameInt(a.page, b.page, PutInt(a.offset, PutInt(a.size, r)), PutInt(b.offset, PutInt(b.size, t)));
    SameInt(a.offset, b.offset, PutInt(a.size, r), PutInt(b.size, t));
    SameInt(a.size, b.size, r, t);
  }

  lemma {:induction false} SameCode(a: seq<Instruction>, b: seq<Instruction>, r: seq<byte>, t: seq<byte>)
    requires |a| == |b| && PutCode(a, r) == PutCode(b, t)
    ensures a == b && r == t
  {
    if a == [] {
    } else {
      SameInt(a[0].start, b[0].start, PutInt(a[0].length, PutCode(a[1..], r)), PutInt(b[0].length, PutCode(b[1..], t)));
      SameInt(a[0].length, b[0].length, PutCode(a[1..], r), PutCode(b[1..], t));
      SameCode(a[1..], b[1..], r, t);
      assert a == [a[0]] + a[1..] && b == [b[0]] + b[1..];
    }
  }

  lemma {:induction false} SameArguments(a: seq<Address>, b: seq<Address>, r: seq<byte>, t: seq<byte>)
    requires |a| == |b| && PutArguments(a, r) == PutArguments(b, t)
    ensures a == b && r == t
  {
    if a == [] {
    } else {
      SameAddress(a[0], b[0], PutArguments(a[1..], r), PutArguments(b[1..], t));
      SameArguments(a[1..], b[1..], r, t);
      assert a == [a[0]] + a[1..] && b == [b[0]] + b[1..];
    }
  }

  lemma {:induction false} SameVariables(a: seq<Variable>, b: seq<Variable>, r: seq<byte>, t: seq<byte>)
    requires |a| == |b| && PutVariables(a, r) == PutVariables(b, t)
    ensures a == b && r == t
  {
    if a == [] {
    } else {
      SameAfterByte(a[0].id, b[0].id, PutAddress(a[0].position, PutVariables(a[1..], r)),
                    PutAddress(b[0].position, PutVariables(b[1..], t)));
      SameAddress(a[0].position, b[0].position, PutVariables(a[1..], r), PutVariables(b[1..], t));
      SameVariables(a[1..], b[1..], r, t);
      assert a == [a[0]] + a[1..] && b == [b[0]] + b[1..];
    }
  }

  lemma SameAfterByte(x: byte, y: byte, r: seq<byte>, t: seq<byte>)
    requires [x] + r == [y] + t
    ensures x == y && r == t
  {
    assert ([x] + r)[0] == x && ([y] + t)[0] == y;
    assert ([x] + r)[1..] == r && ([y] + t)[1..] == t;
  }

  lemma SameFrame(f: Frame, g: Frame, r: seq<byte>, t: seq<byte>)
    requires FrameFits(f) && FrameFits(g) && PutFrame(f, r) == PutFrame(g, t)
    ensures f == g && r == t
  {
    var fe, ge := PutInt(f.returnTo, PutAddress(f.returnVariable, r)),
      PutInt(g.returnTo, PutAddress(g.returnVariable, t));
    var fv, gv := PutInt(|f.variables|, PutVariables(f.variables, fe)),
      PutInt(|g.variables|, PutVariables(g.variables, ge));
    SameInt(f.position, g.position, PutInt(|f.arguments|, PutArguments(f.arguments, fv)),
            PutInt(|g.arguments|, PutArguments(g.arguments, gv)));
    SameInt(|f.arguments|, |g.arguments|, PutArguments(f.arguments, fv), PutArguments(g.arguments, gv));
    SameArguments(f.arguments, g.arguments, fv, gv);
    SameInt(|f.variables|, |g.variables|, PutVariables(f.variables, fe), PutVariables(g.variables, ge));
    SameVariables(f.variables, g.variables, fe, ge);
    SameInt(f.returnTo, g.returnTo, PutAddress(f.returnVariable, r), PutAddress(g.returnVariable, t));
    SameAddress(f.returnVariable, g.returnVariable, r, t);
  }

  lemma {:induction false} SameFrames(a: seq<Frame>, b: seq<Frame>, r: seq<byte>, t: seq<byte>)
    requires |a| == |b| && FramesFit(a) && FramesFit(b) && PutFrames(a, r) == PutFrames(b, t)
    ensures a == b && r == t
  {
    if a == [] {
    } else {
      SameFrame(a[0], b[0], PutFrames(a[1..], r), PutFrames(b[1..], t));
      SameFrames(a[1..], b[1..], r, t);
      assert a == [a[0]] + a[1..] && b == [b[0]] + b[1..];
    }
  }

  lemma SameHeader(p: Pcb, q: Pcb, r: seq<byte>, t: seq<byte>)
    requires PutHeader(p, r) == PutHeader(q, t)
    ensures p.pid == q.pid && p.pc == q.pc && p.sp == q.sp && p.pages == q.pages
    ensures p.status == q.status && p.exitCode == q.exitCode && p.first == q.first && r == t
  {
    var p5, q5 := PutInt(p.status, PutInt(p.exitCode, PutInt(p.first, r))),
      PutInt(q.status, PutInt(q.exitCode, PutInt(q.first, t)));
    SameInt(p.pid, q.pid, PutInt(p.pc, PutInt(p.sp, PutInt(p.pages, p5))),
            PutInt(q.pc, PutInt(q.sp, PutInt(q.pages, q5))));
    SameInt(p.pc, q.pc, PutInt(p.sp, PutInt(p.pages, p5)), PutInt(q.sp, PutInt(q.pages, q5)));
    SameInt(p.sp, q.sp, PutInt(p.pages, p5), PutInt(q.pages, q5));
    SameInt(p.pages, q.pages, p5, q5);
    SameInt(p.status, q.status, PutInt(p.exitCode, PutInt(p.first, r)), PutInt(q.exitCode, PutInt(q.first, t)));
    SameInt(p.exitCode, q.exitCode, PutInt(p.first, r), PutInt(q.first, t));
    SameInt(p.first, q.first, r, t);
  }

  lemma SameStack(p: Pcb, q: Pcb, r: seq<byte>, t: seq<byte>)
    requires FramesFit(p.frames) && FramesFit(q.frames) && CountsMatch(p) && CountsMatch(q)
    requires PutStack(p, r) == PutStack(q, t)
    ensures p.functions == q.functions && p.labelCount == q.labelCount && p.frameCount == q.frameCount
    ensures p.frames == q.frames && p.stackEnd == q.stackEnd && p.flags == q.flags && r == t
  {
    var pe, qe := PutAddress(p.stackEnd, PutFlags(p.flags, r)), PutAddress(q.stackEnd, PutFlags(q.flags, t));
    SameInt(p.functions, q.functions, PutInt(p.labelCount, PutInt(p.frameCount, PutFrames(p.frames, pe))),
            PutInt(q.labelCount, PutInt(q.frameCount, PutFrames(q.frames, qe))));
    SameInt(p.labelCount, q.labelCount, PutInt(p.frameCount, PutFrames(p.frames, pe)),
            PutInt(q.frameCount, PutFrames(q.frames, qe)));
    SameInt(p.frameCount, q.frameCount, PutFrames(p.frames, pe), PutFrames(q.frames, qe));
    SameFrames(p.frames, q.frames, pe, qe);
    SameAddress(p.stackEnd, q.stackEnd, PutFlags(p.flags, r), PutFlags(q.flags, t));
    SameFlags(p.flags, q.flags, r, t);
  }

  lemma SameFlags(f: Flags, g: Flags, r: seq<byte>, t: seq<byte>)
    requires PutFlags(f, r) == PutFlags(g, t)
    ensures f == g && r == t
  {
    var x, y := PutFlags(f, r), PutFlags(g, t);
    assert forall k :: 0 <= k < 8 ==> x[k] == y[k];
    assert x[8..] == r && y[8..] == t;
  }

  /** No two PCBs, whatever follows them, are sent as the same bytes. */
  lemma SamePcb(p: Pcb, q: Pcb, r: seq<byte>, t: seq<byte>)
    requires FramesFit(p.frames) && FramesFit(q.frames) && CountsMatch(p) && CountsMatch(q)
    requires PutPcb(p, r) == PutPcb(q, t)
    ensures p == q && r == t
  {
    var ps, qs := PutStack(p, r), PutStack(q, t);
    var pl, ql := PutInt(p.labelsSize, PutBytes(p.labels, ps)), PutInt(q.labelsSize, PutBytes(q.labels, qs));
    SameHeader(p, q, PutInt(p.codeCount, PutCode(p.code, pl)), PutInt(q.codeCount, PutCode(q.code, ql)));
    SameInt(p.codeCount, q.codeCount, PutCode(p.code, pl), PutCode(q.code, ql));
    SameCode(p.code, q.code, pl, ql);
    SameInt(p.labelsSize, q.labelsSize, PutBytes(p.labels, ps), PutBytes(q.labels, qs));
    SameBytes(p.labels, q.labels, ps, qs);
    SameStack(p, q, r, t);
  }

  lemma SameBytes(a: seq<byte>, b: seq<byte>, r: seq<byte>, t: seq<byte>)
    requires |a| == |b| && PutBytes(a, r) == PutBytes(b, t)
    ensures a == b && r == t
  {
    assert PutBytes(a, r)[..|a|] == a && PutBytes(b, t)[..|b|] == b;
    assert PutBytes(a, r)[|a|..] == r && PutBytes(b, t)[|b|..] == t;
  }

  // ---------------------------------------------------------------- where each part is

  /** The number that stands at a position of the stream. */
  ghost function IntAt(data: seq<byte>, at: nat): int
    requires at + 4 <= |data|
  {
    DecodeInt32(data[at..at + 4])
  }

  lemma IntStands(x: int32, rest: seq<byte>)
    ensures |PutInt(x, rest)| == 4 + |rest| && IntAt(PutInt(x, rest), 0) == x
    ensures forall at: nat :: at + 4 <= |rest| ==> IntAt(PutInt(x, rest), 4 + at) == IntAt(rest, at)
  {
    var data := PutInt(x, rest);
    DecodeEncodeInt32(x);
    assert data[0..4] == EncodeInt32(x);
    forall at: nat | at + 4 <= |rest|
      ensures IntAt(data, 4 + at) == IntAt(rest, at)
    {
      assert data[4 + at..4 + at + 4] == rest[at..at + 4];
    }
  }

  /** Process, page, offset and size, four bytes each. */
  lemma AddressLayout(a: Address, rest: seq<byte>)
    ensures var data := PutAddress(a, rest);
            |data| == 16 + |rest| && IntAt(data, 0) == a.pid && IntAt(data, 4) == a.page &&
            IntAt(data, 8) == a.offset && IntAt(data, 12) == a.size
  {
    IntStands(a.size, rest);
    IntStands(a.offset, PutInt(a.size, rest));
    IntStands(a.page, PutInt(a.offset, PutInt(a.size, rest)));
    IntStands(a.pid, PutInt(a.page, PutInt(a.offset, PutInt(a.size, rest))));
  }

  /** A PCB begins with seven numbers, and the eighth counts the instructions. */
  lemma HeaderLayout(p: Pcb, count: int32, rest: seq<byte>)
    ensures var data := PutHeader(p, PutInt(count, rest));
            |data| == 32 + |rest| && IntAt(data, 0) == p.pid && IntAt(data, 4) == p.pc && IntAt(data, 8) == p.sp &&
            IntAt(data, 12) == p.pages && IntAt(data, 16) == p.status && IntAt(data, 20) == p.exitCode &&
            IntAt(data, 24) == p.first && IntAt(data, 28) == count
  {
    var d7 := PutInt(count, rest);
    var d6 := PutInt(p.first, d7);
    var d5 := PutInt(p.exitCode, d6);
    var d4 := PutInt(p.status, d5);
    var d3 := PutInt(p.pages, d4);
    IntStands(count, rest);
    IntStands(p.first, d7);
    IntStands(p.exitCode, d6);
    IntStands(p.status, d5);
    IntStands(p.pages, d4);
    IntStands(p.sp, d3);
    IntStands(p.pc, PutInt(p.sp, d3));
    IntStands(p.pid, PutInt(p.pc, PutInt(p.sp, d3)));
  }

  /** Three counts come before the frames: functions, labels, frames. */
  lemma StackLayout(p: Pcb, rest: seq<byte>)
    requires FramesFit(p.frames)
    ensures var data := PutStack(p, rest);
            12 <= |data| && IntAt(data, 0) == p.functions && IntAt(data, 4) == p.labelCount &&
            IntAt(data, 8) == p.frameCount
  {
    var frames := PutFrames(p.frames, PutAddress(p.stackEnd, PutFlags(p.flags, rest)));
    IntStands(p.frameCount, frames);
    IntStands(p.labelCount, PutInt(p.frameCount, frames));
    IntStands(p.functions, PutInt(p.labelCount, PutInt(p.frameCount, frames)));
  }

  /** A frame begins with its position and the count of its arguments, which follow. */
  lemma FrameLayout(f: Frame, rest: seq<byte>)
    requires FrameFits(f)
    ensures var data := PutFrame(f, rest);
            8 <= |data| && IntAt(data, 0) == f.position && IntAt(data, 4) == |f.arguments| &&
            (f.arguments != [] ==>
             24 <= |data| && IntAt(data, 8) == f.arguments[0].pid && IntAt(data, 12) == f.arguments[0].page)
    ensures f.arguments == [] ==> 12 <= |PutFrame(f, rest)| && IntAt(PutFrame(f, rest), 8) == |f.variables|
  {
    var vars := PutVariables(f.variables, PutInt(f.returnTo, PutAddress(f.returnVariable, rest)));
    var args := PutArguments(f.arguments, PutInt(|f.variables|, vars));
    IntStands(|f.variables|, vars);
    IntStands(|f.arguments|, args);
    IntStands(f.position, PutInt(|f.arguments|, args));
    if f.arguments != [] {
      AddressLayout(f.arguments[0], PutArguments(f.arguments[1..], PutInt(|f.variables|, vars)));
      assert IntAt(PutInt(|f.arguments|, args), 4 + 0) == IntAt(args, 0);
      assert IntAt(PutInt(|f.arguments|, args), 4 + 4) == IntAt(args, 4);
    }
  }

  /** An instruction takes eight bytes, its start before its length. */
  lemma {:induction false} CodeLayout(code: seq<Instruction>, rest: seq<byte>, k: nat)
    requires k < |code|
    ensures var data := PutCode(code, rest);
            8 * |code| <= |data| && IntAt(data, 8 * k) == code[k].start && IntAt(data, 8 * k + 4) == code[k].length
  {
    CodeSize(code, rest);
    CodeSize(code[1..], rest);
    if k == 0 {
      FirstInstruction(code[0], PutCode(code[1..], rest), 0);
    } else {
      CodeLayout(code[1..], rest, k - 1);
      FirstInstruction(code[0], PutCode(code[1..], rest), 8 * (k - 1));
      FirstInstruction(code[0], PutCode(code[1..], rest), 8 * (k - 1) + 4);
    }
  }

  lemma FirstInstruction(i: Instruction, tail: seq<byte>, at: nat)
    ensures var data := PutInt(i.start, PutInt(i.length, tail));
            |data| == 8 + |tail| && IntAt(data, 0) == i.start && IntAt(data, 4) == i.length &&
            (at + 4 <= |tail| ==> IntAt(data, at + 8) == IntAt(tail, at))
  {
    IntStands(i.length, tail);
    IntStands(i.start, PutInt(i.length, tail));
    assert IntAt(PutInt(i.start, PutInt(i.length, tail)), 4 + 0) == i.length;
    if at + 4 <= |tail| {
      assert IntAt(PutInt(i.start, PutInt(i.length, tail)), 4 + (4 + at)) == IntAt(tail, at);
    }
  }

  lemma {:induction false} CodeSize(code: seq<Instruction>, rest: seq<byte>)
    ensures |PutCode(code, rest)| == 8 * |code| + |rest|
  {
    if code == [] {
    } else {
      CodeSize(code[1..], rest);
    }
  }

  // ---------------------------------------------------------------- the stream

  /** The bytes that have been sent on a socket and not received yet. */
  class Socket {
    var data: seq<byte>

    method SendInt(x: int32, ghost rest: seq<byte>)
      modifies this
      ensures data + rest == old(data) + PutInt(x, rest)
    {
      data := data + EncodeInt32(x);
    }

    method ReceiveInt(ghost x: int32, ghost rest: seq<byte>) returns (r: int32)
      requires data == PutInt(x, rest)
      modifies this
      ensures r == x && data == rest
    {
      assert data[..4] == EncodeInt32(x);
      DecodeEncodeInt32(x);
      r := DecodeInt32(data[..4]);
      data := data[4..];
    }

    method SendAddress(a: Address, ghost rest: seq<byte>)
      modifies this
      ensures data + rest == old(data) + PutAddress(a, rest)
    {
      SendInt(a.pid, PutInt(a.page, PutInt(a.offset, PutInt(a.size, rest))));
      SendInt(a.page, PutInt(a.offset, PutInt(a.size, rest)));
      SendInt(a.offset, PutInt(a.size, rest));
      SendInt(a.size, rest);
    }

    method ReceiveAddress(ghost a: Address, ghost rest: seq<byte>) returns (r: Address)
      requires data == PutAddress(a, rest)
      modifies this
      ensures r == a && data == rest
    {
      var pid := ReceiveInt(a.pid, PutInt(a.page, PutInt(a.offset, PutInt(a.size, rest))));
      var page := ReceiveInt(a.page, PutInt(a.offset, PutInt(a.size, rest)));
      var offset := ReceiveInt(a.offset, PutInt(a.size, rest));
      var size := ReceiveInt(a.size, rest);
      r := Address(pid, page, offset, size);
    }

    /** The loop over the code index. */
    method SendCode(code: seq<Instruction>, count: int32, ghost rest: seq<byte>)
      requires Visits(count) <= |code|
      modifies this
      ensures data + rest == old(data) + PutCode(code[..Visits(count)], rest)
    {
      ghost var all := code[..Visits(count)];
      var i := 0;
      while i < count
        invariant 0 <= i <= |all| && data + PutCode(all[i..], rest) == old(data) + PutCode(all, rest)
      {
        assert all[i..][1..] == all[i + 1..];
        SendInt(code[i].start, PutInt(code[i].length, PutCode(all[i + 1..], rest)));
        SendInt(code[i].length, PutCode(all[i + 1..], rest));
        i := i + 1;
      }
    }

    method ReceiveCode(count: int32, ghost code: seq<Instruction>, ghost rest: seq<byte>) returns (r: seq<Instruction>)
      requires Visits(count) == |code| && data == PutCode(code, rest)
      modifies this
      ensures r == code && data == rest
    {
      r := [];
      var i := 0;
      while i < count
        invariant 0 <= i <= |code| && r == code[..i] && data == PutCode(code[i..], rest)
      {
        assert code[i..][1..] == code[i + 1..];
        var start := ReceiveInt(code[i].start, PutInt(code[i].length, PutCode(code[i + 1..], rest)));
        var length := ReceiveInt(code[i].length, PutCode(code[i + 1..], rest));
        r := r + [Instruction(start, length)];
        i := i + 1;
      }
    }

    method SendArguments(args: seq<Address>, ghost rest: seq<byte>)
      modifies this
      ensures data + rest == old(data) + PutArguments(args, rest)
    {
      var i := 0;
      while i < |args|
        invariant 0 <= i <= |args| && data + PutArguments(args[i..], rest) == old(data) + PutArguments(args, rest)
      {
        assert args[i..][1..] == args[i + 1..];
        SendAddress(args[i], PutArguments(args[i + 1..], rest));
        i := i + 1;
      }
    }

    method ReceiveArguments(count: int32, ghost args: seq<Address>, ghost rest: seq<byte>) returns (r: seq<Address>)
      requires count == |args| && data == PutArguments(args, rest)
      modifies this
      ensures r == args && data == rest
    {
      r := [];
      var i := 0;
      while i < count
        invariant 0 <= i <= |args| && r == args[..i] && data == PutArguments(args[i..], rest)
      {
        assert args[i..][1..] == args[i + 1..];
        var a := ReceiveAddress(args[i], PutArguments(args[i + 1..], rest));
        r := r + [a];
        i := i + 1;
      }
    }

    method SendVariables(vars: seq<Variable>, ghost rest: seq<byte>)
      modifies this
      ensures data + rest == old(data) + PutVariables(vars, rest)
    {
      var i := 0;
      while i < |vars|
        invariant 0 <= i <= |vars| && data + PutVariables(vars[i..], rest) == old(data) + PutVariables(vars, rest)
      {
        assert vars[i..][1..] == vars[i + 1..];
        SendByte(vars[i].id, PutAddress(vars[i].position, PutVariables(vars[i + 1..], rest)));
        SendAddress(vars[i].position, PutVariables(vars[i + 1..], rest));
        i := i + 1;
      }
    }

    method SendByte(b: byte, ghost rest: seq<byte>)
      modifies this
      ensures data + rest == old(data) + ([b] + rest)
    {
      data := data + [b];
    }

    method ReceiveVariables(count: int32, ghost vars: seq<Variable>, ghost rest: seq<byte>) returns (r: seq<Variable>)
      requires count == |vars| && data == PutVariables(vars, rest)
      modifies this
      ensures r == vars && data == rest
    {
      r := [];
      var i := 0;
      while i < count
        invariant 0 <= i <= |vars| && r == vars[..i] && data == PutVariables(vars[i..], rest)
      {
        assert vars[i..][1..] == vars[i + 1..];
        var id := data[0];
        data := data[1..];
        assert data == PutAddress(vars[i].position, PutVariables(vars[i + 1..], rest));
        var position := ReceiveAddress(vars[i].position, PutVariables(vars[i + 1..], rest));
        r := r + [Variable(id, position)];
        i := i + 1;
      }
    }

    method SendFrame(f: Frame, ghost rest: seq<byte>)
      requires FrameFits(f)
      modifies this
      ensures data + rest == old(data) + PutFrame(f, rest)
    {
      ghost var end := PutInt(f.returnTo, PutAddress(f.returnVariable, rest));
      ghost var vars := PutInt(|f.variables|, PutVariables(f.variables, end));
      SendInt(f.position, PutInt(|f.arguments|, PutArguments(f.arguments, vars)));
      SendInt(|f.arguments|, PutArguments(f.arguments, vars));
      SendArguments(f.arguments, vars);
      SendInt(|f.variables|, PutVariables(f.variables, end));
      SendVariables(f.variables, end);
      SendInt(f.returnTo, PutAddress(f.returnVariable, rest));
      SendAddress(f.returnVariable, rest);
    }

    method ReceiveFrame(ghost f: Frame, ghost rest: seq<byte>) returns (r: Frame)
      requires FrameFits(f) && data == PutFrame(f, rest)
      modifies this
      ensures r == f && data == rest
    {
      ghost var end := PutInt(f.returnTo, PutAddress(f.returnVariable, rest));
      ghost var vars := PutInt(|f.variables|, PutVariables(f.variables, end));
      var position := ReceiveInt(f.position, PutInt(|f.arguments|, PutArguments(f.arguments, vars)));
      var argumentCount := ReceiveInt(|f.arguments|, PutArguments(f.arguments, vars));
      var arguments := ReceiveArguments(argumentCount, f.arguments, vars);
      var variableCount := ReceiveInt(|f.variables|, PutVariables(f.variables, end));
      var variables := ReceiveVariables(variableCount, f.variables, end);
      var returnTo := ReceiveInt(f.returnTo, PutAddress(f.returnVariable, rest));
      var returnVariable := ReceiveAddress(f.returnVariable, rest);
      r := Frame(position, arguments, variables, returnTo, returnVariable);
    }

    /** The loop over the stack index. */
    method SendFrames(fs: seq<Frame>, count: int32, ghost rest: seq<byte>)
      requires Visits(count) <= |fs| && FramesFit(fs[..Visits(count)])
      modifies this
      ensures data + rest == old(data) + PutFrames(fs[..Visits(count)], rest)
    {
      ghost var all := fs[..Visits(count)];
      var i := 0;
      while i < count
        invariant 0 <= i <= |all| && FramesFit(all[i..])
        invariant data + PutFrames(all[i..], rest) == old(data) + PutFrames(all, rest)
      {
        assert all[i..][1..] == all[i + 1..];
        SendFrame(fs[i], PutFrames(all[i + 1..], rest));
        i := i + 1;
      }
    }

    method ReceiveFrames(count: int32, ghost fs: seq<Frame>, ghost rest: seq<byte>) returns (r: seq<Frame>)
      requires Visits(count) == |fs| && FramesFit(fs) && data == PutFrames(fs, rest)
      modifies this
      ensures r == fs && data == rest
    {
      r := [];
      var i := 0;
      while i < count
        invariant 0 <= i <= |fs| && r == fs[..i] && FramesFit(fs[i..]) && data == PutFrames(fs[i..], rest)
      {
        assert fs[i..][1..] == fs[i + 1..];
        var f := ReceiveFrame(fs[i], PutFrames(fs[i + 1..], rest));
        r := r + [f];
        i := i + 1;
      }
    }

    method SendFlags(f: Flags, ghost rest: seq<byte>)
      modifies this
      ensures data + rest == old(data) + PutFlags(f, rest)
    {
      data := data + [Bit(f.finished), Bit(f.called), Bit(f.switched), Bit(f.abnormal),
                      Bit(f.waited), Bit(f.disconnected), Bit(f.running), Bit(f.calledNoReturn)];
    }

    method ReceiveFlags(ghost f: Flags, ghost rest: seq<byte>) returns (r: Flags)
      requires data == PutFlags(f, rest)
      modifies this
      ensures r == f && data == rest
    {
      r := Flags(data[0] != 0, data[1] != 0, data[2] != 0, data[3] != 0,
                 data[4] != 0, data[5] != 0, data[6] != 0, data[7] != 0);
      data := data[8..];
    }

    // -------------------------------------------------------------- the whole PCB

    /** `enviarPcb`. */
    method SendPcb(p: Pcb, ghost rest: seq<byte>)
      requires Sendable(p)
      modifies this
      ensures data + rest == old(data) + PutPcb(Sent(p), rest)
    {
      ghost var q := Sent(p);
      ghost var stack := PutStack(q, rest);
      ghost var labels := PutInt(q.labelsSize, PutBytes(q.labels, stack));
      SendHeader(p, PutInt(q.codeCount, PutCode(q.code, labels)));
      SendInt(p.codeCount, PutCode(q.code, labels));
      SendCode(p.code, p.codeCount, labels);
      SendInt(p.labelsSize, PutBytes(q.labels, stack));
      SendLabels(p.labels, p.labelsSize, stack);
      SendStack(p, rest);
    }

    method SendHeader(p: Pcb, ghost rest: seq<byte>)
      modifies this
      ensures data + rest == old(data) + PutHeader(p, rest)
    {
      SendInt(p.pid,
              PutInt(p.pc, PutInt(p.sp, PutInt(p.pages, PutInt(p.status, PutInt(p.exitCode, PutInt(p.first, rest)))))));
      SendInt(p.pc, PutInt(p.sp, PutInt(p.pages, PutInt(p.status, PutInt(p.exitCode, PutInt(p.first, rest))))));
      SendInt(p.sp, PutInt(p.pages, PutInt(p.status, PutInt(p.exitCode, PutInt(p.first, rest)))));
      SendInt(p.pages, PutInt(p.status, PutInt(p.exitCode, PutInt(p.first, rest))));
      SendInt(p.status, PutInt(p.exitCode, PutInt(p.first, rest)));
      SendInt(p.exitCode, PutInt(p.first, rest));
      SendInt(p.first, rest);
    }

    method SendLabels(labels: seq<byte>, size: int32, ghost rest: seq<byte>)
      requires Visits(size) <= |labels|
      modifies this
      ensures data + rest == old(data) + PutBytes(labels[..Visits(size)], rest)
    {
      if size > 0 {
        data := data + labels[..size];
      }
    }

    method SendStack(p: Pcb, ghost rest: seq<byte>)
      requires Sendable(p)
      modifies this
      ensures data + rest == old(data) + PutStack(Sent(p), rest)
    {
      ghost var q := Sent(p);
      ghost var end := PutAddress(q.stackEnd, PutFlags(q.flags, rest));
      SendInt(p.functions, PutInt(q.labelCount, PutInt(q.frameCount, PutFrames(q.frames, end))));
      SendInt(p.labelCount, PutInt(q.frameCount, PutFrames(q.frames, end)));
      SendInt(p.frameCount, PutFrames(q.frames, end));
      SendFrames(p.frames, p.frameCount, end);
      SendAddress(p.stackEnd, PutFlags(q.flags, rest));
      SendFlags(p.flags, rest);
    }

    /** `recibirPcb`: whatever was sent comes back, and what follows it stays in the stream. */
    method ReceivePcb(ghost p: Pcb, ghost rest: seq<byte>) returns (r: Pcb)
      requires CountsMatch(p) && FramesFit(p.frames) && data == PutPcb(p, rest)
      modifies this
      ensures r == p && data == rest
    {
      ghost var stack := PutStack(p, rest);
      ghost var labelled := PutInt(p.labelsSize, PutBytes(p.labels, stack));
      r := ReceiveHeader(p, PutInt(p.codeCount, PutCode(p.code, labelled)));
      var codeCount := ReceiveInt(p.codeCount, PutCode(p.code, labelled));
      var code := ReceiveCode(codeCount, p.code, labelled);
      var labelsSize := ReceiveInt(p.labelsSize, PutBytes(p.labels, stack));
      var labels := ReceiveLabels(labelsSize, p.labels, stack);
      r := ReceiveStack(r.(codeCount := codeCount, code := code, labelsSize := labelsSize, labels := labels), p, rest);
    }

    method ReceiveHeader(ghost p: Pcb, ghost rest: seq<byte>) returns (r: Pcb)
      requires data == PutHeader(p, rest)
      modifies this
      ensures data == rest && r.pid == p.pid && r.pc == p.pc && r.sp == p.sp && r.pages == p.pages
      ensures r.status == p.status && r.exitCode == p.exitCode && r.first == p.first
    {
      var pid := ReceiveInt(p.pid,
                            PutInt(p.pc, PutInt(p.sp, PutInt(p.pages, PutInt(p.status, PutInt(p.exitCode,
                                                                                        PutInt(p.first, rest)))))));
      var pc := ReceiveInt(p.pc,
                           PutInt(p.sp, PutInt(p.pages, PutInt(p.status, PutInt(p.exitCode, PutInt(p.first, rest))))));
      var sp := ReceiveInt(p.sp, PutInt(p.pages, PutInt(p.status, PutInt(p.exitCode, PutInt(p.first, rest)))));
      var pages := ReceiveInt(p.pages, PutInt(p.status, PutInt(p.exitCode, PutInt(p.first, rest))));
      var status := ReceiveInt(p.status, PutInt(p.exitCode, PutInt(p.first, rest)));
      var exitCode := ReceiveInt(p.exitCode, PutInt(p.first, rest));
      var first := ReceiveInt(p.first, rest);
      var nowhere := Address(0, 0, 0, 0);
      r := Pcb(pid, pc, sp, pages, status, exitCode, first, 0, [], 0, [], 0, 0, 0, [], nowhere,
               Flags(false, false, false, false, false, false, false, false));
    }

    method ReceiveLabels(size: int32, ghost labels: seq<byte>, ghost rest: seq<byte>) returns (r: seq<byte>)
      requires Visits(size) == |labels| && data == PutBytes(labels, rest)
      modifies this
      ensures r == labels && data == rest
    {
      r := [];
      if size > 0 {
        r := data[..size];
        data := data[size..];
      }
    }

    /** The rest of the PCB, filled into what has been received of it. */
    method ReceiveStack(partial: Pcb, ghost p: Pcb, ghost rest: seq<byte>) returns (r: Pcb)
      requires Visits(p.frameCount) == |p.frames| && FramesFit(p.frames) && data == PutStack(p, rest)
      modifies this
      ensures data == rest
      ensures r == partial.(functions := p.functions, labelCount := p.labelCount, frameCount := p.frameCount,
                            frames := p.frames, stackEnd := p.stackEnd, flags := p.flags)
    {
      ghost var end := PutAddress(p.stackEnd, PutFlags(p.flags, rest));
      var functions := ReceiveInt(p.functions, PutInt(p.labelCount, PutInt(p.frameCount, PutFrames(p.frames, end))));
      var labelCount := ReceiveInt(p.labelCount, PutInt(p.frameCount, PutFrames(p.frames, end)));
      var frameCount := ReceiveInt(p.frameCount, PutFrames(p.frames, end));
      var frames := ReceiveFrames(frameCount, p.frames, end);
      var stackEnd := ReceiveAddress(p.stackEnd, PutFlags(p.flags, rest));
      var flags := ReceiveFlags(p.flags, rest);
      r := partial.(functions := functions, labelCount := labelCount, frameCount := frameCount,
                    frames := frames, stackEnd := stackEnd, flags := flags);
    }

    lemma NothingAround(a: seq<byte>, b: seq<byte>)
      requires a + [] == [] + b
      ensures a == b
    {
      assert a + [] == a;
      assert [] + b == b;
    }

    /** A PCB sent over an empty connection arrives as it was if and only if its counts match its lists. */
    method Transfer(p: Pcb) returns (r: Pcb)
      requires Sendable(p) && data == []
      modifies this
      ensures r == Sent(p) && (r == p <==> CountsMatch(p)) && data == []
    {
      SendPcb(p, []);
      NothingAround(data, PutPcb(Sent(p), []));
      r := ReceivePcb(Sent(p), []);
    }
  }
}
